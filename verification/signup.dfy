/** The in-memory user list of the route service: `GET /proximoId` and the
    validation and append of `POST /usuarios`. The list is an input and an
    output of each operation instead of a module-level variable. */
module Signup {
  import opened Common
  import opened Text

  /** `Login`. `nome` and `senha` are stored as they arrive in the body;
      `email` is stored only after it was checked to be a string. */
  datatype Login = Login(id: int, nome: Json, email: string, senha: Json)

  /** The body of a `201` response: the new user without `senha`. */
  datatype PublicLogin = PublicLogin(id: int, nome: Json, email: string)

  datatype SignupError =
    | MissingFields   // 400: a required field is missing or falsy
    | InvalidEmail    // 400: the email lacks `@` or `.`
    | ShortPassword   // 400: the password is too short
    | EmailTaken      // 409: the email is already registered

  datatype SignupResult = Rejected(error: SignupError) | Created(view: PublicLogin)

  /** The user list after the request, and the response. */
  datatype SignupOutcome = SignupOutcome(users: seq<Login>, result: SignupResult)

  /** The minimum password length. */
  const MinPasswordLength := 6

  /** The id the next user gets: one more than the last user's, or 1 for an
      empty list (`/proximoId`, and the id assignment of the signup). Only
      the last user is looked at, so the id is fresh when the ids increase
      along the list. */
  function NextId(users: seq<Login>): (r: int)
    ensures |users| == 0 ==> r == 1
    ensures |users| > 0 ==> r == users[|users| - 1].id + 1
    ensures (forall i, j :: 0 <= i < j < |users| ==> users[i].id < users[j].id) ==>
      forall i :: 0 <= i < |users| ==> users[i].id < r
  {
    if |users| == 0 then 1 else users[|users| - 1].id + 1
  }

  /** Ids as the service hands them out: 1, 2, 3, ... in list order. */
  ghost predicate IdsConsecutive(users: seq<Login>) {
    forall i :: 0 <= i < |users| ==> users[i].id == i + 1
  }

  /** No two users share an email up to case. */
  ghost predicate EmailsUnique(users: seq<Login>) {
    forall i, j :: 0 <= i < j < |users| ==> Lower(users[i].email) != Lower(users[j].email)
  }

  /** On a list built by the service the next id is the list length plus one,
      so it is above every id in use. */
  lemma NextIdFresh(users: seq<Login>)
    requires IdsConsecutive(users)
    ensures NextId(users) == |users| + 1
    ensures forall i :: 0 <= i < |users| ==> users[i].id < NextId(users)
  {
  }

  /** The email shape check: a string holding both `@` and `.`. */
  predicate EmailOk(email: Json) {
    email.JStr? && '@' in email.s && '.' in email.s
  }

  /** Some user already has `email`, compared after lower-casing both. */
  predicate EmailInUse(users: seq<Login>, email: string) {
    exists i :: 0 <= i < |users| && Lower(users[i].email) == Lower(email)
  }

  /** `users.some(u => u.email.toLowerCase() === email.toLowerCase())`. */
  function AnyEmailMatches(users: seq<Login>, email: string): (r: bool)
    ensures r <==> EmailInUse(users, email)
  {
    if |users| == 0 then false
    else if Lower(users[0].email) == Lower(email) then true
    else
      assert forall i :: 1 <= i < |users| ==> users[1..][i - 1] == users[i];
      AnyEmailMatches(users[1..], email)
  }

  /** `POST /usuarios` with body `{ nome, email, senha }`. */
  function Register(users: seq<Login>, nome: Json, email: Json, senha: Json): (out: SignupOutcome)
    ensures out.result == Rejected(MissingFields) <==> !Truthy(nome) || !Truthy(email) || !Truthy(senha)
    ensures out.result == Rejected(InvalidEmail) <==>
      Truthy(nome) && Truthy(email) && Truthy(senha) && !EmailOk(email)
    ensures out.result == Rejected(ShortPassword) <==>
      Truthy(nome) && Truthy(email) && Truthy(senha) && EmailOk(email) && |Shown(senha)| < MinPasswordLength
    ensures out.result == Rejected(EmailTaken) <==>
      Truthy(nome) && Truthy(email) && Truthy(senha) && EmailOk(email) && |Shown(senha)| >= MinPasswordLength &&
      EmailInUse(users, email.s)
    ensures out.result.Rejected? ==> out.users == users
    ensures out.result.Created? ==>
      && email.JStr?
      && out.users == users + [Login(NextId(users), nome, email.s, senha)]
      && out.result.view == PublicLogin(NextId(users), nome, email.s)
  {
    if !Truthy(nome) || !Truthy(email) || !Truthy(senha) then SignupOutcome(users, Rejected(MissingFields))
    else if !EmailOk(email) then SignupOutcome(users, Rejected(InvalidEmail))
    else if |Shown(senha)| < MinPasswordLength then SignupOutcome(users, Rejected(ShortPassword))
    else if AnyEmailMatches(users, email.s) then SignupOutcome(users, Rejected(EmailTaken))
    else
      var id := NextId(users);
      SignupOutcome(users + [Login(id, nome, email.s, senha)], Created(PublicLogin(id, nome, email.s)))
  }

  /** A signup moves `/proximoId` on by exactly one; a refused one leaves it
      where it was. */
  lemma RegisterAdvancesNextId(users: seq<Login>, nome: Json, email: Json, senha: Json)
    ensures Register(users, nome, email, senha).result.Created? ==>
      NextId(Register(users, nome, email, senha).users) == NextId(users) + 1
    ensures Register(users, nome, email, senha).result.Rejected? ==>
      NextId(Register(users, nome, email, senha).users) == NextId(users)
  {
  }

  /** Signups keep the ids 1, 2, 3, ... in list order. */
  lemma RegisterKeepsIdsConsecutive(users: seq<Login>, nome: Json, email: Json, senha: Json)
    requires IdsConsecutive(users)
    ensures IdsConsecutive(Register(users, nome, email, senha).users)
  {
    var out := Register(users, nome, email, senha);
    if out.result.Created? {
      NextIdFresh(users);
      assert forall i :: 0 <= i < |users| ==> out.users[i] == users[i];
    }
  }

  /** Signups never let two users share an email up to case. */
  lemma RegisterKeepsEmailsUnique(users: seq<Login>, nome: Json, email: Json, senha: Json)
    requires EmailsUnique(users)
    ensures EmailsUnique(Register(users, nome, email, senha).users)
  {
    var out := Register(users, nome, email, senha);
    if out.result.Created? {
      forall i, j | 0 <= i < j < |out.users|
        ensures Lower(out.users[i].email) != Lower(out.users[j].email)
      {
        assert out.users[i] == users[i];
        if j < |users| {
          assert out.users[j] == users[j];
        } else {
          assert out.users[j].email == email.s;
        }
      }
    }
  }

  /** Registering the same email again, in any letter case, is refused as
      taken once the first signup went through. */
  lemma RegisterTwice(users: seq<Login>, nome: Json, email: Json, senha: Json,
                      nome2: Json, email2: Json, senha2: Json)
    requires Register(users, nome, email, senha).result.Created?
    requires Truthy(nome2) && Truthy(senha2) && |Shown(senha2)| >= MinPasswordLength
    requires EmailOk(email2) && Lower(email2.s) == Lower(email.s)
    ensures Register(Register(users, nome, email, senha).users, nome2, email2, senha2).result
      == Rejected(EmailTaken)
  {
    var users' := Register(users, nome, email, senha).users;
    assert users'[|users|].email == email.s;
    assert Truthy(email2);
  }
}
