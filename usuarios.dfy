/**
 * The `usuarios` table and the handlers of server.js that read and change
 * it: list, create, status update, full update, delete and login. Each
 * handler is one atomic step on the table and answers with a status code and
 * a JSON body. A `fault` argument stands for a failure of the database driver
 * or of bcrypt, which every handler catches and answers with 500.
 */
module Usuarios {
  import opened Wrappers
  import opened Text
  import opened Normalize

  /** The AUTO_INCREMENT primary key. */
  type Id = nat

  /** A row of `usuarios`; `senha` is the bcrypt digest, NULL after an update without a password. */
  datatype Usuario = Usuario(nome: string, telefone: string, senha: Option<string>, status: int)

  /** A user as a response shows it: the row without `senha`. */
  datatype PublicUser = PublicUser(id: Id, nome: string, telefone: string, status: int)

  /** An element of `GET /usuarios`: the public fields and the profile-photo path. */
  datatype ListedUser = ListedUser(id: Id, nome: string, telefone: string, status: int, fotoUrl: string)

  /** The JSON bodies the handlers send; none of them has a place for `senha`. */
  datatype Body =
    | Error(error: string)
    | Created(user: PublicUser)
    | StatusSet(id: Id, status: int)
    | Edited(id: Id, nome: string, telefone: string)
    | Message(message: string)
    | Profile(user: PublicUser)
    | Listing(users: seq<ListedUser>)

  datatype Response = Response(code: int, body: Body)

  const MissingFields := "Nome, telefone e senha são obrigatórios"
  const InvalidPhone := "Telefone inválido. Use DDD seguido de 8 ou 9 dígitos, ex: 11912345678"
  const DuplicatePhone := "Telefone já cadastrado"
  const CreateFailed := "Erro ao criar usuário"
  const ListFailed := "Erro ao buscar usuários"
  const NotFound := "Usuário não encontrado"
  const StatusFailed := "Erro ao atualizar status"
  const LoginMissing := "Telefone e senha são obrigatórios"
  const UnknownPhone := "Telefone não cadastrado"
  const Inactive := "Usuário inativo"
  const WrongPassword := "Senha incorreta"
  const LoginFailed := "Erro ao fazer login"
  const UpdateFailed := "Erro ao atualizar usuário"
  const DeletedMessage := "Usuário excluído com sucesso"
  const DeleteFailed := "Erro ao excluir usuário"

  /** JavaScript truthiness of a request-body string: present and not empty. */
  predicate Present(field: Option<string>)
    ensures Present(field) <==> field != None && field != Some("")
  {
    field.Some? && field.value != ""
  }

  /** The UNIQUE constraint on `telefone`. */
  ghost predicate UniquePhones(rows: map<Id, Usuario>)
    ensures UniquePhones(rows) <==> forall id :: id in rows ==> !PhoneTakenByOther(rows, id, rows[id].telefone)
  {
    forall a, b :: a in rows && b in rows && rows[a].telefone == rows[b].telefone ==> a == b
  }

  /** Some row has telefone `t`: inserting `t` violates the UNIQUE constraint (`ER_DUP_ENTRY`). */
  predicate PhoneTaken(rows: map<Id, Usuario>, t: string)
    ensures PhoneTaken(rows, t) <==> t in (set id | id in rows :: rows[id].telefone)
  {
    exists id :: id in rows && rows[id].telefone == t
  }

  /** Some row other than `id` has telefone `t`: writing `t` into row `id` violates the UNIQUE constraint. */
  predicate PhoneTakenByOther(rows: map<Id, Usuario>, id: Id, t: string)
    ensures PhoneTakenByOther(rows, id, t) ==> PhoneTaken(rows, t)
    ensures id !in rows ==> (PhoneTakenByOther(rows, id, t) <==> PhoneTaken(rows, t))
  {
    exists other :: other in rows && other != id && rows[other].telefone == t
  }

  /**
   * `order` lists the ids of `rows` in primary-key order. SQL leaves the order of
   * a SELECT without ORDER BY open; this is the order InnoDB's full scan of its
   * clustered index gives.
   */
  ghost predicate TableOrder(order: seq<Id>, rows: map<Id, Usuario>) {
    && (forall i :: 0 <= i < |order| ==> order[i] in rows)
    && (forall i, j :: 0 <= i < j < |order| ==> order[i] < order[j])
    && (forall id :: id in rows ==> id in order)
  }

  /** `SELECT ... FROM usuarios WHERE telefone = ?`: the matching ids in table order. */
  function Select(order: seq<Id>, rows: map<Id, Usuario>, t: string): (ids: seq<Id>)
    requires forall i :: 0 <= i < |order| ==> order[i] in rows
    ensures forall k :: 0 <= k < |ids| ==> ids[k] in order && ids[k] in rows && rows[ids[k]].telefone == t
    ensures forall k :: 0 <= k < |order| && rows[order[k]].telefone == t ==> order[k] in ids
  {
    if order == [] then []
    else (if rows[order[0]].telefone == t then [order[0]] else []) + Select(order[1..], rows, t)
  }

  /** The lookup finds nothing when no listed row has telefone `t`. */
  lemma {:induction false} SelectNoMatch(order: seq<Id>, rows: map<Id, Usuario>, t: string)
    requires forall i :: 0 <= i < |order| ==> order[i] in rows && rows[order[i]].telefone != t
    ensures Select(order, rows, t) == []
  {
    if order != [] {
      SelectNoMatch(order[1..], rows, t);
    }
  }

  /** Under the UNIQUE constraint the lookup by telefone finds the one row that has it. */
  lemma {:induction false} SelectOwner(order: seq<Id>, rows: map<Id, Usuario>, t: string, id: Id)
    requires forall i :: 0 <= i < |order| ==> order[i] in rows
    requires forall i, j :: 0 <= i < j < |order| ==> order[i] < order[j]
    requires UniquePhones(rows)
    requires id in order && rows[id].telefone == t
    ensures Select(order, rows, t) == [id]
  {
    if order[0] == id {
      SelectNoMatch(order[1..], rows, t);
    } else {
      SelectOwner(order[1..], rows, t, id);
    }
  }

  /** The lookup finds nothing exactly when no row has telefone `t`. */
  lemma SelectEmpty(order: seq<Id>, rows: map<Id, Usuario>, t: string)
    requires TableOrder(order, rows) && UniquePhones(rows)
    ensures Select(order, rows, t) == [] <==> !PhoneTaken(rows, t)
  {
    if PhoneTaken(rows, t) {
      var id :| id in rows && rows[id].telefone == t;
      SelectOwner(order, rows, t, id);
    } else {
      SelectNoMatch(order, rows, t);
    }
  }

  /** Deleting the row at position `k` of the table order keeps the order of the remaining rows. */
  lemma RemoveFromOrder(order: seq<Id>, rows: map<Id, Usuario>, k: nat)
    requires TableOrder(order, rows) && k < |order|
    ensures TableOrder(order[..k] + order[k + 1..], rows - {order[k]})
  {
  }

  /** The template `/perfis/${u.id}.jpg`. */
  function PhotoUrl(id: Id): (url: string)
    ensures |url| >= 13 && url[..8] == "/perfis/" && url[|url| - 4..] == ".jpg"
    ensures var n := url[8..|url| - 4]; (forall i :: 0 <= i < |n| ==> IsDigit(n[i])) && DecimalValue(n) == id
  {
    var n := DecimalString(id);
    DecimalRoundTrip(id);
    var url := "/perfis/" + n + ".jpg";
    assert url[8..|url| - 4] == n;
    url
  }

  /** Distinct users get distinct profile-photo paths. */
  lemma PhotoUrlInjective(a: Id, b: Id)
    requires PhotoUrl(a) == PhotoUrl(b)
    ensures a == b
  {
  }

  /** `{...u, fotoUrl}` for one row of the SELECT. */
  function Listed(id: Id, u: Usuario): (v: ListedUser)
    ensures v.id == id && v.nome == u.nome && v.telefone == u.telefone && v.status == u.status
    ensures v.fotoUrl == PhotoUrl(v.id)
  {
    ListedUser(id, u.nome, u.telefone, u.status, PhotoUrl(id))
  }

  /** `results.map(...)` over the rows in table order. */
  function ListView(order: seq<Id>, rows: map<Id, Usuario>): (users: seq<ListedUser>)
    requires forall i :: 0 <= i < |order| ==> order[i] in rows
    ensures |users| == |order|
    ensures forall i :: 0 <= i < |users| ==> users[i] == Listed(order[i], rows[order[i]])
    ensures (forall i, j :: 0 <= i < j < |order| ==> order[i] < order[j]) ==>
      forall i, j :: 0 <= i < j < |users| ==> users[i].id < users[j].id
  {
    seq(|order|, i requires 0 <= i < |order| => Listed(order[i], rows[order[i]]))
  }

  class UserTable {
    /** `bcrypt.hash(senha, saltRounds)`, left uninterpreted. */
    const hash: string -> string
    /** `bcrypt.compare(senha, digest)`, left uninterpreted. */
    const matches: (string, string) -> bool

    var rows: map<Id, Usuario>
    /** The ids of `rows` in primary-key order. */
    var order: seq<Id>
    /** The next AUTO_INCREMENT value. */
    var nextId: Id

    ghost predicate Valid()
      reads this
    {
      && TableOrder(order, rows)
      && (forall id :: id in rows ==> id < nextId)
      && UniquePhones(rows)
    }

    /** bcrypt.compare accepts a password against a digest made from it. */
    ghost predicate HashSound() {
      forall p :: matches(p, hash(p))
    }

    constructor (hash: string -> string, matches: (string, string) -> bool)
      ensures Valid() && this.hash == hash && this.matches == matches
      ensures rows == map[] && order == [] && nextId == 1
    {
      this.hash := hash;
      this.matches := matches;
      rows := map[];
      order := [];
      nextId := 1;
    }

    /** `GET /usuarios`: every row, in table order, without `senha`, with its photo path. */
    method List(fault: bool) returns (r: Response)
      requires Valid()
      ensures fault ==> r == Response(500, Error(ListFailed))
      ensures !fault ==> r.code == 200 && r.body.Listing?
      ensures !fault ==> var users := r.body.users;
        && (forall i :: 0 <= i < |users| ==> users[i].id in rows && users[i] == Listed(users[i].id, rows[users[i].id]))
        && (forall i, j :: 0 <= i < j < |users| ==> users[i].id < users[j].id)
        && (forall id :: id in rows ==> exists i :: 0 <= i < |users| && users[i].id == id)
    {
      if fault {
        return Response(500, Error(ListFailed));
      }
      var users := ListView(order, rows);
      forall id | id in rows
        ensures exists i :: 0 <= i < |users| && users[i].id == id
      {
        var i :| 0 <= i < |order| && order[i] == id;
        assert users[i].id == id;
      }
      r := Response(200, Listing(users));
    }

    /** `POST /usuarios`. */
    method Create(nome: Option<string>, telefone: Option<string>, senha: Option<string>, fault: bool) returns (r: Response)
      requires Valid()
      modifies this
      ensures Valid()
      ensures !(Present(nome) && Present(telefone) && Present(senha)) ==>
        r == Response(400, Error(MissingFields)) && unchanged(this)
      ensures Present(nome) && Present(telefone) && Present(senha) && NormalizePhone(telefone.value).None? ==>
        r == Response(400, Error(InvalidPhone)) && unchanged(this)
      ensures Present(nome) && Present(telefone) && Present(senha) && NormalizePhone(telefone.value).Some? ==>
        var t, id := NormalizePhone(telefone.value).value, old(nextId);
        if fault then
          r == Response(500, Error(CreateFailed)) && unchanged(this)
        else if PhoneTaken(old(rows), t) then
          r == Response(400, Error(DuplicatePhone)) && unchanged(this)
        else
          && id !in old(rows)
          && r == Response(201, Created(PublicUser(id, FormatName(nome.value), t, 1)))
          && rows == old(rows)[id := Usuario(FormatName(nome.value), t, Some(hash(senha.value)), 1)]
          && order == old(order) + [id]
          && nextId == old(nextId) + 1
    {
      if !Present(nome) || !Present(telefone) || !Present(senha) {
        return Response(400, Error(MissingFields));
      }
      var formatted := FormatName(nome.value);
      var phone := Digits(telefone.value);
      if !PhonePattern(phone) {
        return Response(400, Error(InvalidPhone));
      }
      var digest := hash(senha.value);
      if fault {
        return Response(500, Error(CreateFailed));
      }
      if PhoneTaken(rows, phone) {
        return Response(400, Error(DuplicatePhone));
      }
      var id := nextId;
      rows := rows[id := Usuario(formatted, phone, Some(digest), 1)];
      order := order + [id];
      nextId := nextId + 1;
      r := Response(201, Created(PublicUser(id, formatted, phone, 1)));
    }

    /** `PATCH /usuarios/:id/status` and `PUT /usuarios/:id/status`, which run the same code. */
    method UpdateStatus(id: Id, status: int, fault: bool) returns (r: Response)
      requires Valid()
      modifies this`rows
      ensures Valid()
      ensures fault ==> r == Response(500, Error(StatusFailed)) && rows == old(rows)
      ensures !fault && id !in old(rows) ==> r == Response(404, Error(NotFound)) && rows == old(rows)
      ensures !fault && id in old(rows) ==>
        && r == Response(200, StatusSet(id, status))
        && rows == old(rows)[id := old(rows)[id].(status := status)]
    {
      if fault {
        return Response(500, Error(StatusFailed));
      }
      if id !in rows {
        return Response(404, Error(NotFound));
      }
      rows := rows[id := rows[id].(status := status)];
      r := Response(200, StatusSet(id, status));
    }

    /** `PUT /usuarios/:id` and `PATCH /usuarios/:id`, which run the same code. */
    method Update(id: Id, nome: Option<string>, telefone: Option<string>, senha: Option<string>, fault: bool)
      returns (r: Response)
      requires Valid()
      modifies this`rows
      ensures Valid()
      ensures fault ==> r == Response(500, Error(UpdateFailed)) && rows == old(rows)
      ensures !fault && id !in old(rows) ==> r == Response(404, Error(NotFound)) && rows == old(rows)
      ensures !fault && id in old(rows) && (nome.None? || telefone.None? || PhoneTakenByOther(old(rows), id, telefone.value)) ==>
        r == Response(500, Error(UpdateFailed)) && rows == old(rows)
      ensures !fault && id in old(rows) && nome.Some? && telefone.Some? && !PhoneTakenByOther(old(rows), id, telefone.value) ==>
        && r == Response(200, Edited(id, nome.value, telefone.value))
        && rows == old(rows)[id := Usuario(nome.value, telefone.value,
                                           if Present(senha) then Some(hash(senha.value)) else None,
                                           old(rows)[id].status)]
    {
      var digest := if Present(senha) then Some(hash(senha.value)) else None;
      if fault {
        return Response(500, Error(UpdateFailed));
      }
      if id !in rows {
        return Response(404, Error(NotFound));
      }
      if nome.None? || telefone.None? || PhoneTakenByOther(rows, id, telefone.value) {
        return Response(500, Error(UpdateFailed));
      }
      rows := rows[id := Usuario(nome.value, telefone.value, digest, rows[id].status)];
      r := Response(200, Edited(id, nome.value, telefone.value));
    }

    /** `DELETE /usuarios/:id`. */
    method Delete(id: Id, fault: bool) returns (r: Response)
      requires Valid()
      modifies this`rows, this`order
      ensures Valid()
      ensures fault ==> r == Response(500, Error(DeleteFailed)) && rows == old(rows) && order == old(order)
      ensures !fault && id !in old(rows) ==> r == Response(404, Error(NotFound)) && rows == old(rows) && order == old(order)
      ensures !fault && id in old(rows) ==>
        && r == Response(200, Message(DeletedMessage))
        && rows == old(rows) - {id}
        && forall x :: x in order <==> x in old(order) && x != id
    {
      if fault {
        return Response(500, Error(DeleteFailed));
      }
      if id !in rows {
        return Response(404, Error(NotFound));
      }
      var k :| 0 <= k < |order| && order[k] == id;
      RemoveFromOrder(order, rows, k);
      order := order[..k] + order[k + 1..];
      rows := rows - {id};
      r := Response(200, Message(DeletedMessage));
    }

    /** `POST /login`: the decision chain; the table is only read. */
    method Login(telefone: Option<string>, senha: Option<string>, fault: bool) returns (r: Response)
      requires Valid()
      ensures !Present(telefone) || !Present(senha) ==> r == Response(400, Error(LoginMissing))
      ensures Present(telefone) && Present(senha) && fault ==> r == Response(500, Error(LoginFailed))
      ensures Present(telefone) && Present(senha) && !fault && !PhoneTaken(rows, telefone.value) ==>
        r == Response(401, Error(UnknownPhone))
      ensures forall id :: Present(telefone) && Present(senha) && !fault && id in rows && rows[id].telefone == telefone.value ==>
        var u := rows[id];
        if u.status == 0 then r == Response(403, Error(Inactive))
        else if u.senha.None? then r == Response(500, Error(LoginFailed))
        else if !matches(senha.value, u.senha.value) then r == Response(401, Error(WrongPassword))
        else r == Response(200, Profile(PublicUser(id, u.nome, u.telefone, u.status)))
    {
      if !Present(telefone) || !Present(senha) {
        return Response(400, Error(LoginMissing));
      }
      if fault {
        return Response(500, Error(LoginFailed));
      }
      var results := Select(order, rows, telefone.value);
      SelectEmpty(order, rows, telefone.value);
      if |results| == 0 {
        return Response(401, Error(UnknownPhone));
      }
      var id := results[0];
      SelectOwner(order, rows, telefone.value, id);
      var u := rows[id];
      if u.status == 0 {
        return Response(403, Error(Inactive));
      }
      if u.senha.None? {
        // bcrypt.compare rejects a NULL digest; the catch answers 500
        return Response(500, Error(LoginFailed));
      }
      if !matches(senha.value, u.senha.value) {
        return Response(401, Error(WrongPassword));
      }
      r := Response(200, Profile(PublicUser(id, u.nome, u.telefone, u.status)));
    }

    /**
     * Registering and then logging in with the stored phone and the same
     * password returns the record the registration answered with.
     */
    method CreateThenLogin(nome: string, telefone: string, senha: string) returns (created: Response, login: Response)
      requires Valid() && HashSound()
      modifies this
      ensures Valid()
      ensures created.code == 201 ==>
        && created.body == Created(PublicUser(old(nextId), FormatName(nome), Digits(telefone), 1))
        && login == Response(200, Profile(created.body.user))
    {
      created := Create(Some(nome), Some(telefone), Some(senha), false);
      ghost var id := old(nextId);
      login := Login(Some(Digits(telefone)), Some(senha), false);
      if created.code == 201 {
        assert id in rows && rows[id].telefone == Digits(telefone);
        assert matches(senha, hash(senha));
      }
    }

    /**
     * After an update that sends no password the stored digest is NULL, so
     * the user can no longer log in with any password.
     */
    method UpdateWithoutPasswordThenLogin(id: Id, nome: string, telefone: string, senha: string)
      returns (updated: Response, login: Response)
      requires Valid()
      modifies this`rows
      ensures Valid()
      ensures updated.code == 200 && telefone != "" && senha != "" ==>
        login == Response(403, Error(Inactive)) || login == Response(500, Error(LoginFailed))
    {
      updated := Update(id, Some(nome), Some(telefone), None, false);
      login := Login(Some(telefone), Some(senha), false);
    }

    /** Setting a user's status to 0 makes every login attempt for that user answer 403, whatever the password. */
    method DeactivateThenLogin(id: Id, senha: string) returns (deactivated: Response, login: Response)
      requires Valid()
      modifies this`rows
      ensures Valid()
      ensures deactivated.code == 200 && id in rows && rows[id].telefone != "" && senha != "" ==>
        login == Response(403, Error(Inactive))
    {
      deactivated := UpdateStatus(id, 0, false);
      var telefone := if id in rows then rows[id].telefone else "";
      login := Login(Some(telefone), Some(senha), false);
    }
  }
}
