/** The user records of `usuarios.json` and the two routes of the user
    router: `GET /usuarios/:id` and `PUT /usuarios/:id/saldo`. Loading and
    saving the file are left to the caller: each operation takes the loaded
    list and returns the list to save. */
module Wallet {
  import opened Common

  /** `HistoricoItem`. `data` is the ISO timestamp and `descricao` the text
      of the entry; both are inputs of the model. */
  datatype HistoryEntry = HistoryEntry(data: string, descricao: string, valor: real)

  /** `Favorito`. */
  datatype Favorite = Favorite(idEstacao: string, nome: string, linha: string)

  /** `Usuario`. Amounts are exact reals instead of binary floating point. */
  datatype User = User(id: int, username: string, email: string, password: string,
                       saldo: real, historico: seq<HistoryEntry>, favoritos: seq<Favorite>)

  // ---------------------------------------------------------------------
  // parseInt
  // ---------------------------------------------------------------------

  /** The whitespace `parseInt` skips before the number (the ASCII part of
      the set JavaScript uses). */
  predicate IsSpace(c: char) {
    c == ' ' || c == '\t' || c == '\n' || c == '\r' || c == '\U{000B}' || c == '\U{000C}'
  }

  predicate IsDigit(c: char) {
    '0' <= c <= '9'
  }

  predicate IsHexDigit(c: char) {
    IsDigit(c) || 'a' <= c <= 'f' || 'A' <= c <= 'F'
  }

  function DigitValue(c: char): nat
    requires IsHexDigit(c)
  {
    if IsDigit(c) then c as int - '0' as int
    else if 'a' <= c <= 'f' then c as int - 'a' as int + 10
    else c as int - 'A' as int + 10
  }

  /** `s` without its leading whitespace. */
  function TrimStart(s: string): (r: string)
    ensures |r| <= |s| && r == s[|s| - |r|..]
    ensures |r| > 0 ==> !IsSpace(r[0])
    ensures forall i :: 0 <= i < |s| - |r| ==> IsSpace(s[i])
  {
    if |s| > 0 && IsSpace(s[0]) then TrimStart(s[1..]) else s
  }

  /** A string that does not start with whitespace is its own trim. */
  lemma TrimStartNoSpace(s: string)
    requires |s| > 0 && !IsSpace(s[0])
    ensures TrimStart(s) == s
  {
  }

  /** The longest prefix of `s` whose chars satisfy the digit test of the
      radix. */
  function DigitPrefix(s: string, hex: bool): (r: string)
    ensures |r| <= |s| && r == s[..|r|]
    ensures forall i :: 0 <= i < |r| ==> (if hex then IsHexDigit(r[i]) else IsDigit(r[i]))
    ensures |r| < |s| ==> !(if hex then IsHexDigit(s[|r|]) else IsDigit(s[|r|]))
  {
    if |s| > 0 && (if hex then IsHexDigit(s[0]) else IsDigit(s[0])) then [s[0]] + DigitPrefix(s[1..], hex)
    else []
  }

  /** The value of a string of digits in the given radix, most significant
      first. */
  function DigitsValue(ds: string, radix: nat): nat
    requires forall i :: 0 <= i < |ds| ==> IsHexDigit(ds[i])
  {
    if |ds| == 0 then 0 else DigitsValue(ds[..|ds| - 1], radix) * radix + DigitValue(ds[|ds| - 1])
  }

  /** `t` without a leading `+` or `-`. */
  function SkipSign(t: string): string {
    if |t| > 0 && (t[0] == '+' || t[0] == '-') then t[1..] else t
  }

  /** A `0x` or `0X` prefix, which makes `parseInt` read hexadecimal. */
  predicate HexPrefixed(u: string) {
    |u| >= 2 && u[0] == '0' && (u[1] == 'x' || u[1] == 'X')
  }

  /** The unsigned part of `parseInt`: the longest run of digits of the
      radix the prefix selects, or `None` when there is no digit. */
  function Magnitude(u: string): (r: Option<nat>)
    ensures r.None? <==> if HexPrefixed(u) then |u| == 2 || !IsHexDigit(u[2]) else |u| == 0 || !IsDigit(u[0])
  {
    var hex := HexPrefixed(u);
    var ds := DigitPrefix(if hex then u[2..] else u, hex);
    if |ds| == 0 then None else Some(DigitsValue(ds, if hex then 16 else 10))
  }

  /** `parseInt(s)` without a radix argument: skip leading whitespace, read
      an optional sign, then a `0x`/`0X` prefix selects radix 16 and anything
      else radix 10; the number is the longest run of digits that follows.
      `None` is `NaN`: no digit where the first one should be. */
  function ParseInt(s: string): (r: Option<int>)
    ensures r.None? <==> Magnitude(SkipSign(TrimStart(s))).None?
    ensures r.Some? && |TrimStart(s)| > 0 && TrimStart(s)[0] == '-' ==>
      r.value == -(Magnitude(SkipSign(TrimStart(s))).value as int)
    ensures r.Some? && !(|TrimStart(s)| > 0 && TrimStart(s)[0] == '-') ==>
      r.value == Magnitude(SkipSign(TrimStart(s))).value
  {
    var t := TrimStart(s);
    match Magnitude(SkipSign(t))
    case None => None
    case Some(n) =>
      var v: int := if |t| > 0 && t[0] == '-' then -(n as int) else n;
      Some(v)
  }

  /** The decimal digit for `d`. */
  function DigitChar(d: nat): (c: char)
    requires d < 10
    ensures IsDigit(c) && DigitValue(c) == d
  {
    ('0' as int + d) as char
  }

  /** The decimal representation of `n`, as `String(n)` writes it. */
  function NatToString(n: nat): (r: string)
    ensures |r| > 0
    ensures forall i :: 0 <= i < |r| ==> IsDigit(r[i])
    decreases n
  {
    if n < 10 then [DigitChar(n)] else NatToString(n / 10) + [DigitChar(n % 10)]
  }

  /** Reading back the digits of `n` gives `n`. */
  lemma {:induction false} DigitsValueOfNatToString(n: nat)
    ensures DigitsValue(NatToString(n), 10) == n
    decreases n
  {
    var r := NatToString(n);
    if n >= 10 {
      DigitsValueOfNatToString(n / 10);
      assert r[..|r| - 1] == NatToString(n / 10);
    }
  }

  /** The digits of `n` are all of `NatToString(n)`: the decimal prefix stops
      only at the end. */
  lemma {:induction false} DigitPrefixOfDigits(s: string)
    requires forall i :: 0 <= i < |s| ==> IsDigit(s[i])
    ensures DigitPrefix(s, false) == s
  {
    if |s| > 0 {
      DigitPrefixOfDigits(s[1..]);
    }
  }

  /** The digits of `n` read back as `n`. */
  lemma MagnitudeOfDecimal(n: nat)
    ensures Magnitude(NatToString(n)) == Some(n)
  {
    var digits := NatToString(n);
    DigitsValueOfNatToString(n);
    DigitPrefixOfDigits(digits);
    if n >= 10 {
      NoLeadingZero(n);
    }
  }

  /** `parseInt` reads back a non-negative id written in decimal. */
  lemma ParseIntOfNat(n: nat)
    ensures ParseInt(NatToString(n)) == Some(n)
  {
    var digits := NatToString(n);
    MagnitudeOfDecimal(n);
    TrimStartNoSpace(digits);
    assert SkipSign(digits) == digits;
  }

  /** `parseInt` reads back a negative id written in decimal after a minus
      sign. */
  lemma ParseIntOfNegative(n: nat)
    requires n > 0
    ensures ParseInt("-" + NatToString(n)) == Some(-(n as int))
  {
    var s := "-" + NatToString(n);
    MagnitudeOfDecimal(n);
    TrimStartNoSpace(s);
    assert SkipSign(s) == NatToString(n);
  }

  /** A decimal representation with two or more digits does not start with
      `0`, so it never looks like a `0x` prefix. */
  lemma {:induction false} NoLeadingZero(n: nat)
    requires n >= 10
    ensures NatToString(n)[0] != '0'
    decreases n
  {
    if n / 10 >= 10 {
      NoLeadingZero(n / 10);
      assert NatToString(n)[0] == NatToString(n / 10)[0];
    } else {
      assert NatToString(n)[0] == DigitChar(n / 10);
    }
  }

  // ---------------------------------------------------------------------
  // The routes
  // ---------------------------------------------------------------------

  /** `usuarios.find(u => u.id === id)`: the index of the first user with
      the id. */
  function FindUser(users: seq<User>, id: int): (r: Option<nat>)
    ensures r.Some? ==> r.value < |users| && users[r.value].id == id
    ensures r.Some? ==> forall j :: 0 <= j < r.value ==> users[j].id != id
    ensures r.None? <==> forall j :: 0 <= j < |users| ==> users[j].id != id
  {
    FindIndex(users, (u: User) => u.id == id)
  }

  datatype GetResult =
    | GetInvalidId        // 400: the id is not a number
    | GetNotFound         // 404: no user has the id
    | GetFound(user: User)

  /** `GET /usuarios/:id`. */
  function GetUser(users: seq<User>, idParam: string): (r: GetResult)
    ensures r.GetInvalidId? <==> ParseInt(idParam).None?
    ensures r.GetNotFound? <==>
      ParseInt(idParam).Some? && forall j :: 0 <= j < |users| ==> users[j].id != ParseInt(idParam).value
    ensures r.GetFound? ==>
      && ParseInt(idParam).Some?
      && FindUser(users, ParseInt(idParam).value).Some?
      && r.user == users[FindUser(users, ParseInt(idParam).value).value]
  {
    match ParseInt(idParam)
    case None => GetInvalidId
    case Some(id) =>
      match FindUser(users, id)
      case None => GetNotFound
      case Some(k) => GetFound(users[k])
  }

  datatype CreditResult =
    | CreditInvalidId     // 400: the id is not a number
    | CreditInvalidAmount // 400: the amount is not a positive number
    | CreditNotFound      // 404: no user has the id
    | Credited(saldoAtual: real, historico: seq<HistoryEntry>)

  /** The user list to save and the response. */
  datatype CreditOutcome = CreditOutcome(users: seq<User>, result: CreditResult)

  /** `typeof valor === "number" && valor > 0`. */
  predicate PositiveNumber(valor: Json) {
    valor.JNum? && valor.n > 0.0
  }

  /** The user after a credit of `v`: the balance grows by `v` and one entry
      is appended to the history. */
  function AddCredit(u: User, v: real, data: string, descricao: string): (r: User)
    ensures r.saldo == u.saldo + v
    ensures r.historico == u.historico + [HistoryEntry(data, descricao, v)]
    ensures r.id == u.id && r.username == u.username && r.email == u.email
    ensures r.password == u.password && r.favoritos == u.favoritos
  {
    u.(saldo := u.saldo + v, historico := u.historico + [HistoryEntry(data, descricao, v)])
  }

  /** The outcome of crediting `v` to the user at index `k`: only that user
      changes, as `AddCredit` says, and the response shows its new balance
      and history. */
  predicate CreditApplied(users: seq<User>, out: CreditOutcome, k: nat, v: real, data: string, descricao: string) {
    && k < |users|
    && out.users == users[k := AddCredit(users[k], v, data, descricao)]
    && out.result == Credited(users[k].saldo + v, users[k].historico + [HistoryEntry(data, descricao, v)])
  }

  /** `PUT /usuarios/:id/saldo` with body `{ valor }`. `data` is the time of
      the request and `descricao` the entry text, both computed by the
      caller. */
  function Credit(users: seq<User>, idParam: string, valor: Json, data: string, descricao: string): (out: CreditOutcome)
    ensures out.result.CreditInvalidId? <==> ParseInt(idParam).None?
    ensures out.result.CreditInvalidAmount? <==> ParseInt(idParam).Some? && !PositiveNumber(valor)
    ensures out.result.CreditNotFound? <==>
      ParseInt(idParam).Some? && PositiveNumber(valor) &&
      forall j :: 0 <= j < |users| ==> users[j].id != ParseInt(idParam).value
    ensures !out.result.Credited? ==> out.users == users
    ensures out.result.Credited? ==>
      && ParseInt(idParam).Some?
      && PositiveNumber(valor)
      && FindUser(users, ParseInt(idParam).value).Some?
      && CreditApplied(users, out, FindUser(users, ParseInt(idParam).value).value, valor.n, data, descricao)
  {
    match ParseInt(idParam)
    case None => CreditOutcome(users, CreditInvalidId)
    case Some(id) =>
      if !PositiveNumber(valor) then CreditOutcome(users, CreditInvalidAmount)
      else
        match FindUser(users, id)
        case None => CreditOutcome(users, CreditNotFound)
        case Some(k) =>
          var u := AddCredit(users[k], valor.n, data, descricao);
          CreditOutcome(users[k := u], Credited(u.saldo, u.historico))
  }

  /** The sum of all balances. */
  function TotalSaldo(users: seq<User>): real {
    if |users| == 0 then 0.0 else users[0].saldo + TotalSaldo(users[1..])
  }

  /** Replacing one user changes the total by the change of that balance. */
  lemma {:induction false} TotalSaldoUpdate(users: seq<User>, k: nat, u: User)
    requires k < |users|
    ensures TotalSaldo(users[k := u]) == TotalSaldo(users) - users[k].saldo + u.saldo
  {
    if k > 0 {
      TotalSaldoUpdate(users[1..], k - 1, u);
      assert users[k := u][1..] == users[1..][k - 1 := u];
    }
  }

  /** A credit adds exactly the credited amount to the money held by all
      users, and a refused one adds nothing. */
  lemma CreditTotal(users: seq<User>, idParam: string, valor: Json, data: string, descricao: string)
    ensures var out := Credit(users, idParam, valor, data, descricao);
      TotalSaldo(out.users) == TotalSaldo(users) + (if out.result.Credited? then valor.n else 0.0)
  {
    var out := Credit(users, idParam, valor, data, descricao);
    if out.result.Credited? {
      var k := FindUser(users, ParseInt(idParam).value).value;
      TotalSaldoUpdate(users, k, AddCredit(users[k], valor.n, data, descricao));
    }
  }

  /** After a credit, reading the same user back shows the new balance and
      the new last history entry. */
  lemma CreditThenGet(users: seq<User>, idParam: string, valor: Json, data: string, descricao: string)
    requires Credit(users, idParam, valor, data, descricao).result.Credited?
    ensures var out := Credit(users, idParam, valor, data, descricao);
      var got := GetUser(out.users, idParam);
      && got.GetFound?
      && got.user.saldo == out.result.saldoAtual
      && got.user.historico == out.result.historico
  {
    var out := Credit(users, idParam, valor, data, descricao);
    var id := ParseInt(idParam).value;
    var k := FindUser(users, id).value;
    assert forall j :: 0 <= j < |users| ==> out.users[j].id == users[j].id;
    assert FindUser(out.users, id) == Some(k);
  }
}
