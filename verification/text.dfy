/** Station-name normalisation (`normalizarTexto`): canonical decomposition
    (NFD), removal of the combining diacritical marks U+0300..U+036F, then
    lower-casing. Decomposition is modelled by a table of the precomposed
    Latin letters used in Portuguese station names; lower-casing is modelled
    on ASCII letters. */
module Text {

  /** A char of the Combining Diacritical Marks block, U+0300..U+036F. */
  predicate IsCombiningMark(c: char) {
    '\U{0300}' <= c <= '\U{036F}'
  }

  predicate IsAsciiUpper(c: char) {
    'A' <= c <= 'Z'
  }

  predicate IsAsciiLetter(c: char) {
    IsAsciiUpper(c) || 'a' <= c <= 'z'
  }

  /** Canonical decomposition of one char: a precomposed accented letter
      becomes its ASCII base letter followed by one combining mark; every
      other char is its own decomposition. */
  function Decompose(c: char): (r: seq<char>)
    ensures |r| == 1 || |r| == 2
    ensures |r| == 1 ==> r == [c]
    ensures |r| == 2 ==> IsAsciiLetter(r[0]) && IsCombiningMark(r[1])
    ensures c < '\U{0080}' || IsCombiningMark(c) ==> r == [c]
  {
    match c
    // grave U+0300
    case '\U{00E0}' => ['a', '\U{0300}']
    case '\U{00C0}' => ['A', '\U{0300}']
    // acute U+0301
    case '\U{00E1}' => ['a', '\U{0301}']
    case '\U{00C1}' => ['A', '\U{0301}']
    case '\U{00E9}' => ['e', '\U{0301}']
    case '\U{00C9}' => ['E', '\U{0301}']
    case '\U{00ED}' => ['i', '\U{0301}']
    case '\U{00CD}' => ['I', '\U{0301}']
    case '\U{00F3}' => ['o', '\U{0301}']
    case '\U{00D3}' => ['O', '\U{0301}']
    case '\U{00FA}' => ['u', '\U{0301}']
    case '\U{00DA}' => ['U', '\U{0301}']
    // circumflex U+0302
    case '\U{00E2}' => ['a', '\U{0302}']
    case '\U{00C2}' => ['A', '\U{0302}']
    case '\U{00EA}' => ['e', '\U{0302}']
    case '\U{00CA}' => ['E', '\U{0302}']
    case '\U{00F4}' => ['o', '\U{0302}']
    case '\U{00D4}' => ['O', '\U{0302}']
    // tilde U+0303
    case '\U{00E3}' => ['a', '\U{0303}']
    case '\U{00C3}' => ['A', '\U{0303}']
    case '\U{00F5}' => ['o', '\U{0303}']
    case '\U{00D5}' => ['O', '\U{0303}']
    // diaeresis U+0308
    case '\U{00FC}' => ['u', '\U{0308}']
    case '\U{00DC}' => ['U', '\U{0308}']
    // cedilla U+0327
    case '\U{00E7}' => ['c', '\U{0327}']
    case '\U{00C7}' => ['C', '\U{0327}']
    case _ => [c]
  }

  /** A char that canonical decomposition leaves as it is. */
  predicate IsDecomposed(c: char) {
    |Decompose(c)| == 1
  }

  /** `String.prototype.normalize("NFD")`, char by char. */
  function Nfd(s: string): (r: string)
    ensures forall i :: 0 <= i < |r| ==> IsDecomposed(r[i])
    ensures (forall i :: 0 <= i < |s| ==> IsDecomposed(s[i])) ==> r == s
  {
    if |s| == 0 then [] else Decompose(s[0]) + Nfd(s[1..])
  }

  /** The `replace` of the combining-mark range by "": drops every
      combining mark and keeps every other char. */
  function StripMarks(s: string): (r: string)
    ensures |r| <= |s|
    ensures forall c :: c in r <==> c in s && !IsCombiningMark(c)
    ensures (forall i :: 0 <= i < |s| ==> !IsCombiningMark(s[i])) ==> r == s
  {
    if |s| == 0 then []
    else if IsCombiningMark(s[0]) then StripMarks(s[1..])
    else [s[0]] + StripMarks(s[1..])
  }

  function LowerChar(c: char): char {
    if IsAsciiUpper(c) then (c as int + 32) as char else c
  }

  /** `toLowerCase` on ASCII: upper-case letters become their lower-case
      counterparts, every other char is kept, position by position. */
  function Lower(s: string): (r: string)
    ensures |r| == |s|
    ensures forall i :: 0 <= i < |s| && IsAsciiUpper(s[i]) ==> r[i] == (s[i] as int + 32) as char
    ensures forall i :: 0 <= i < |s| && !IsAsciiUpper(s[i]) ==> r[i] == s[i]
    ensures forall i :: 0 <= i < |r| ==> !IsAsciiUpper(r[i])
  {
    if |s| == 0 then [] else [LowerChar(s[0])] + Lower(s[1..])
  }

  /** A char that normalisation leaves as it is. */
  predicate IsNormalChar(c: char) {
    IsDecomposed(c) && !IsCombiningMark(c) && !IsAsciiUpper(c)
  }

  /** `normalizarTexto`. */
  function Normalize(s: string): (r: string)
    ensures forall i :: 0 <= i < |r| ==> IsNormalChar(r[i])
    ensures forall i :: 0 <= i < |r| ==> !IsCombiningMark(r[i])
  {
    var stripped := StripMarks(Nfd(s));
    assert forall i :: 0 <= i < |stripped| ==> stripped[i] in Nfd(s);
    LowerKeepsDecomposed(stripped);
    Lower(stripped)
  }

  /** Lower-casing keeps a decomposed, mark-free string decomposed and
      mark-free. */
  lemma {:induction false} LowerKeepsDecomposed(s: string)
    requires forall i :: 0 <= i < |s| ==> IsDecomposed(s[i]) && !IsCombiningMark(s[i])
    ensures forall i :: 0 <= i < |Lower(s)| ==> IsNormalChar(Lower(s)[i])
  {
    var r := Lower(s);
    forall i | 0 <= i < |r|
      ensures IsNormalChar(r[i])
    {
      if IsAsciiUpper(s[i]) {
        assert r[i] < '\U{0080}';
      } else {
        assert r[i] == s[i];
      }
    }
  }

  /** A string made of normal chars is a fixed point of normalisation. */
  lemma NormalIsFixed(s: string)
    requires forall i :: 0 <= i < |s| ==> IsNormalChar(s[i])
    ensures Normalize(s) == s
  {
    assert Nfd(s) == s;
    assert StripMarks(s) == s;
  }

  /** `normalizarTexto` is idempotent. */
  lemma NormalizeIdempotent(s: string)
    ensures Normalize(Normalize(s)) == Normalize(s)
  {
    NormalIsFixed(Normalize(s));
  }

  lemma {:induction false} NfdAppend(a: string, b: string)
    ensures Nfd(a + b) == Nfd(a) + Nfd(b)
  {
    if |a| > 0 {
      assert (a + b)[1..] == a[1..] + b;
      NfdAppend(a[1..], b);
    } else {
      assert a + b == b;
    }
  }

  lemma {:induction false} StripMarksAppend(a: string, b: string)
    ensures StripMarks(a + b) == StripMarks(a) + StripMarks(b)
  {
    if |a| > 0 {
      var ab := a + b;
      assert ab[0] == a[0] && ab[1..] == a[1..] + b;
      StripMarksAppend(a[1..], b);
      if IsCombiningMark(a[0]) {
        calc {
          StripMarks(ab);
          StripMarks(a[1..] + b);
          StripMarks(a[1..]) + StripMarks(b);
          StripMarks(a) + StripMarks(b);
        }
      } else {
        calc {
          StripMarks(ab);
          [a[0]] + StripMarks(a[1..] + b);
          [a[0]] + (StripMarks(a[1..]) + StripMarks(b));
          ([a[0]] + StripMarks(a[1..])) + StripMarks(b);
          StripMarks(a) + StripMarks(b);
        }
      }
    } else {
      assert a + b == b;
    }
  }

  lemma {:induction false} LowerAppend(a: string, b: string)
    ensures Lower(a + b) == Lower(a) + Lower(b)
  {
    if |a| > 0 {
      assert (a + b)[1..] == a[1..] + b;
      LowerAppend(a[1..], b);
    } else {
      assert a + b == b;
    }
  }

  /** Normalisation works char by char: it distributes over concatenation. */
  lemma NormalizeAppend(a: string, b: string)
    ensures Normalize(a + b) == Normalize(a) + Normalize(b)
  {
    NfdAppend(a, b);
    StripMarksAppend(Nfd(a), Nfd(b));
    LowerAppend(StripMarks(Nfd(a)), StripMarks(Nfd(b)));
  }

  /** Lower-casing a char first does not change its normal form. */
  lemma NormalizeLowerChar(c: char)
    ensures Normalize([LowerChar(c)]) == Normalize([c])
  {
    assert Nfd([c]) == Decompose(c) + Nfd([]);
    assert Nfd([LowerChar(c)]) == Decompose(LowerChar(c)) + Nfd([]);
    if IsAsciiUpper(c) {
      assert Decompose(c) == [c];
      assert Decompose(LowerChar(c)) == [LowerChar(c)];
    }
  }

  /** Station lookup ignores letter case: a query lower-cased beforehand
      normalises to the same string. */
  lemma {:induction false} NormalizeIgnoresCase(s: string)
    ensures Normalize(Lower(s)) == Normalize(s)
  {
    if |s| > 0 {
      assert s == [s[0]] + s[1..];
      assert Lower(s) == [LowerChar(s[0])] + Lower(s[1..]);
      NormalizeAppend([LowerChar(s[0])], Lower(s[1..]));
      NormalizeAppend([s[0]], s[1..]);
      NormalizeLowerChar(s[0]);
      NormalizeIgnoresCase(s[1..]);
    }
  }

  /** Station lookup ignores accents: a precomposed accented letter
      normalises to its lower-case base letter. */
  lemma NormalizeDropsAccent(c: char)
    requires !IsDecomposed(c)
    ensures Normalize([c]) == [LowerChar(Decompose(c)[0])]
  {
    var d := Decompose(c);
    assert Nfd([c]) == d;
    assert d == [d[0]] + [d[1]];
    StripMarksAppend([d[0]], [d[1]]);
    assert StripMarks([d[0]]) == [d[0]];
    assert StripMarks([d[1]]) == [];
    assert Lower([d[0]]) == [LowerChar(d[0])];
  }
}
