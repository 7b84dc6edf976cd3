/** Character-level text helpers the lookup tool relies on: case mapping,
    whitespace stripping, substring tests, decimal digits, and the removal of
    the `*`, `#`, `+` marker characters that the season reports append to
    player names (bcli.py:329, 1339, 1734, 2051). */
module Text {
  import opened Seqs

  /** Python's `str.lower()` restricted to ASCII letters. */
  function LowerChar(c: char): char
  {
    if 'A' <= c <= 'Z' then (c as int + 32) as char else c
  }

  /** Python's `str.upper()` restricted to ASCII letters. */
  function UpperChar(c: char): char
  {
    if 'a' <= c <= 'z' then (c as int - 32) as char else c
  }

  function Lower(s: string): (r: string)
    ensures |r| == |s| && forall i :: 0 <= i < |s| ==> r[i] == LowerChar(s[i])
  {
    if s == [] then [] else [LowerChar(s[0])] + Lower(s[1..])
  }

  function Upper(s: string): (r: string)
    ensures |r| == |s| && forall i :: 0 <= i < |s| ==> r[i] == UpperChar(s[i])
  {
    if s == [] then [] else [UpperChar(s[0])] + Upper(s[1..])
  }

  /** Lower-casing a slice is slicing the lower-cased string. */
  lemma LowerSlice(s: string, a: nat, b: nat)
    requires a <= b <= |s|
    ensures Lower(s[a..b]) == Lower(s)[a..b]
  {
  }

  lemma LowerIdempotent(s: string)
    ensures Lower(Lower(s)) == Lower(s)
  {
  }

  lemma UpperOfLower(s: string)
    ensures Upper(Lower(s)) == Upper(s)
  {
  }

  /** Python's `str.isspace()` for one character. */
  predicate IsSpace(c: char)
  {
    || 9 <= c as int <= 13 || 28 <= c as int <= 32 || c as int == 0x85 || c as int == 0xA0
    || c as int == 0x1680 || 0x2000 <= c as int <= 0x200A || c as int == 0x2028 || c as int == 0x2029
    || c as int == 0x202F || c as int == 0x205F || c as int == 0x3000
  }

  function TrimLeft(s: string): (r: string)
    ensures |r| <= |s| && r == s[|s| - |r|..]
    ensures r == [] || !IsSpace(r[0])
    ensures forall i :: 0 <= i < |s| - |r| ==> IsSpace(s[i])
  {
    if s != [] && IsSpace(s[0]) then TrimLeft(s[1..]) else s
  }

  function TrimRight(s: string): (r: string)
    ensures |r| <= |s| && r == s[..|r|]
    ensures r == [] || !IsSpace(r[|r| - 1])
    ensures forall i :: |r| <= i < |s| ==> IsSpace(s[i])
  {
    if s != [] && IsSpace(s[|s| - 1]) then TrimRight(s[..|s| - 1]) else s
  }

  /** Python's `str.strip()`: drop leading and trailing whitespace. */
  function Strip(s: string): (r: string)
  {
    TrimRight(TrimLeft(s))
  }

  /** `s[a..b]` is `s` with only whitespace cut from either end. */
  predicate TrimmedSlice(s: string, a: int, b: int)
  {
    && 0 <= a <= b <= |s|
    && (forall i :: 0 <= i < a ==> IsSpace(s[i]))
    && (forall i :: b <= i < |s| ==> IsSpace(s[i]))
  }

  /** What Strip returns is a contiguous piece of its argument with no
      whitespace at either end, and only whitespace was cut off. */
  lemma StripIsTrimmedSlice(s: string)
    ensures exists a, b :: TrimmedSlice(s, a, b) && Strip(s) == s[a..b]
    ensures var r := Strip(s); r == [] || (!IsSpace(r[0]) && !IsSpace(r[|r| - 1]))
  {
    StripIsSlice(s);
    StripEnds(s);
  }

  lemma StripIsSlice(s: string)
    ensures exists a, b :: TrimmedSlice(s, a, b) && Strip(s) == s[a..b]
  {
    var l := TrimLeft(s);
    var a := |s| - |l|;
    var b := a + |Strip(s)|;
    PrefixOfSuffix(s, a, |Strip(s)|);
    SpaceAfterStrip(s, l, a, TrimRight(l));
    assert TrimmedSlice(s, a, b);
  }

  /** What TrimRight cuts from the suffix `l` of `s` is whitespace of `s`. */
  lemma SpaceAfterStrip(s: string, l: string, a: nat, r: string)
    requires a <= |s| && l == s[a..] && |r| <= |l|
    requires forall j :: |r| <= j < |l| ==> IsSpace(l[j])
    ensures forall i :: a + |r| <= i < |s| ==> IsSpace(s[i])
  {
    forall i | a + |r| <= i < |s| ensures IsSpace(s[i]) {
      assert l[i - a] == s[i];
    }
  }

  lemma StripEnds(s: string)
    ensures var r := Strip(s); r == [] || (!IsSpace(r[0]) && !IsSpace(r[|r| - 1]))
  {
    var l := TrimLeft(s);
    var r := TrimRight(l);
    if r != [] {
      assert r[0] == l[0];
    }
  }

  lemma PrefixOfSuffix(s: string, a: nat, k: nat)
    requires a + k <= |s|
    ensures s[a..][..k] == s[a..a + k]
  {
  }

  lemma {:induction false} TrimLeftNoop(s: string)
    requires s == [] || !IsSpace(s[0])
    ensures TrimLeft(s) == s
  {
  }

  lemma {:induction false} TrimRightNoop(s: string)
    requires s == [] || !IsSpace(s[|s| - 1])
    ensures TrimRight(s) == s
  {
  }

  lemma StripIdempotent(s: string)
    ensures Strip(Strip(s)) == Strip(s)
  {
    StripIsTrimmedSlice(s);
    var r := Strip(s);
    TrimLeftNoop(r);
    TrimRightNoop(r);
  }

  /** The characters `re.sub(r'[*#+]', '', name)` deletes. */
  predicate IsMarker(c: char)
  {
    c == '*' || c == '#' || c == '+'
  }

  /** `re.sub(r'[*#+]', '', s)`: the characters of `s` in order, each marker
      left out and every other character kept as often as it occurs. */
  function RemoveMarkers(s: string): (r: string)
    ensures forall c :: c in r <==> c in s && !IsMarker(c)
    ensures IsSubsequence(r, s)
    ensures forall c :: multiset(r)[c] == if IsMarker(c) then 0 else multiset(s)[c]
  {
    if s == [] then []
    else
      var rest := RemoveMarkers(s[1..]);
      HeadMultiset(s);
      if IsMarker(s[0]) then
        SubsequenceOfTail(rest, s);
        rest
      else
        var r := [s[0]] + rest;
        assert r[0] == s[0] && r[1..] == rest;
        HeadMultiset(r);
        r
  }

  lemma {:induction false} RemoveMarkersNoop(s: string)
    requires forall c :: c in s ==> !IsMarker(c)
    ensures RemoveMarkers(s) == s
  {
    if s != [] {
      assert s[0] in s;
      assert forall c :: c in s[1..] ==> c in s;
      RemoveMarkersNoop(s[1..]);
    }
  }

  /** Strip keeps only characters of its argument. */
  lemma StripSubset(s: string)
    ensures forall c :: c in Strip(s) ==> c in s
  {
    StripIsSlice(s);
    var a, b :| TrimmedSlice(s, a, b) && Strip(s) == s[a..b];
    var r := Strip(s);
    forall c | c in r ensures c in s {
      var k :| 0 <= k < |r| && r[k] == c;
      assert s[a + k] == c;
    }
  }

  /** `re.sub(r'[*#+]', '', name).strip()`: the name compared and sent to the
      league API with its marker characters removed. It is the marker-free
      name with only whitespace cut from its two ends. */
  function StripMarkers(name: string): (r: string)
    ensures forall c :: c in r ==> c in name && !IsMarker(c)
    ensures r == [] || (!IsSpace(r[0]) && !IsSpace(r[|r| - 1]))
    ensures exists a, b :: TrimmedSlice(RemoveMarkers(name), a, b) && r == RemoveMarkers(name)[a..b]
  {
    var cleaned := RemoveMarkers(name);
    StripOfCleaned(name, cleaned);
    Strip(cleaned)
  }

  lemma StripOfCleaned(name: string, cleaned: string)
    requires cleaned == RemoveMarkers(name)
    ensures forall c :: c in Strip(cleaned) ==> c in name && !IsMarker(c)
    ensures var r := Strip(cleaned); r == [] || (!IsSpace(r[0]) && !IsSpace(r[|r| - 1]))
    ensures exists a, b :: TrimmedSlice(cleaned, a, b) && Strip(cleaned) == cleaned[a..b]
  {
    StripIsTrimmedSlice(cleaned);
    StripSubset(cleaned);
  }

  /** Stripping markers twice changes nothing more. */
  lemma StripMarkersIdempotent(name: string)
    ensures StripMarkers(StripMarkers(name)) == StripMarkers(name)
  {
    var once := StripMarkers(name);
    RemoveMarkersNoop(once);
    StripIsTrimmedSlice(once);
    TrimLeftNoop(once);
    TrimRightNoop(once);
  }

  /** Python's `sub in s`. */
  predicate Contains(s: string, sub: string)
    decreases |s|
  {
    StartsWith(s, sub) || (s != [] && Contains(s[1..], sub))
  }

  /** Python's `s.startswith(p)`. */
  predicate StartsWith(s: string, p: string)
  {
    |p| <= |s| && s[..|p|] == p
  }

  /** `sub` occurs in `s` starting at offset `i`. */
  predicate OccursAt(s: string, sub: string, i: int)
  {
    0 <= i && i + |sub| <= |s| && s[i..i + |sub|] == sub
  }

  /** Contains means: the substring occurs at some offset. */
  lemma {:induction false} ContainsAt(s: string, sub: string)
    ensures Contains(s, sub) <==> exists i :: OccursAt(s, sub, i)
  {
    if s != [] {
      ContainsAt(s[1..], sub);
      if exists i :: OccursAt(s, sub, i) {
        var i :| OccursAt(s, sub, i);
        if i > 0 {
          assert s[1..][i - 1..i - 1 + |sub|] == sub;
          assert OccursAt(s[1..], sub, i - 1);
        }
      }
      if Contains(s[1..], sub) && !StartsWith(s, sub) {
        var i :| OccursAt(s[1..], sub, i);
        assert s[i + 1..i + 1 + |sub|] == sub;
        assert OccursAt(s, sub, i + 1);
      }
      if StartsWith(s, sub) { assert OccursAt(s, sub, 0); }
    } else {
      if exists i :: OccursAt(s, sub, i) {
        assert StartsWith(s, sub);
      }
      if StartsWith(s, sub) { assert OccursAt(s, sub, 0); }
    }
  }

  predicate IsDigit(c: char)
  {
    '0' <= c <= '9'
  }

  /** Python's `str.isdigit()` (ASCII digits): true only for a non-empty string of digits. */
  predicate AllDigits(s: string)
  {
    s != [] && forall i :: 0 <= i < |s| ==> IsDigit(s[i])
  }

  /** `int(s)` for a string of decimal digits. */
  function DigitsValue(s: string): nat
    requires forall i :: 0 <= i < |s| ==> IsDigit(s[i])
  {
    if s == [] then 0 else DigitsValue(s[..|s| - 1]) * 10 + DigitValue(s[|s| - 1])
  }

  function DigitValue(c: char): nat
    requires IsDigit(c)
  {
    c as int - '0' as int
  }

  lemma {:induction false} DigitsValueAppend(a: string, b: string)
    requires forall i :: 0 <= i < |a| ==> IsDigit(a[i])
    requires forall i :: 0 <= i < |b| ==> IsDigit(b[i])
    ensures forall i :: 0 <= i < |a + b| ==> IsDigit((a + b)[i])
    ensures DigitsValue(a + b) == DigitsValue(a) * Pow10(|b|) + DigitsValue(b)
    decreases |b|
  {
    DigitsAppend(a, b);
    if b != [] {
      DigitsValueAppend(a, b[..|b| - 1]);
      DigitsValueAppendStep(a, b, b[..|b| - 1]);
    } else {
      assert a + b == a;
    }
  }

  lemma DigitsValueAppendStep(a: string, b: string, b': string)
    requires b != [] && b' == b[..|b| - 1]
    requires forall i :: 0 <= i < |a| ==> IsDigit(a[i])
    requires forall i :: 0 <= i < |b| ==> IsDigit(b[i])
    requires forall i :: 0 <= i < |a + b| ==> IsDigit((a + b)[i])
    requires forall i :: 0 <= i < |a + b'| ==> IsDigit((a + b')[i])
    requires DigitsValue(a + b') == DigitsValue(a) * Pow10(|b'|) + DigitsValue(b')
    ensures DigitsValue(a + b) == DigitsValue(a) * Pow10(|b|) + DigitsValue(b)
  {
    SnocPrefix(a, b);
    var d := DigitValue(b[|b| - 1]);
    var x, p, y := DigitsValue(a), Pow10(|b'|), DigitsValue(b');
    assert DigitsValue(a + b) == DigitsValue(a + b') * 10 + d;
    ShiftDigit(x, p, y, d);
  }

  /** Appending digit d to a number x * p + y. */
  lemma ShiftDigit(x: int, p: int, y: int, d: int)
    ensures (x * p + y) * 10 + d == x * (10 * p) + (y * 10 + d)
  {
  }

  lemma SnocPrefix(a: string, b: string)
    requires b != []
    ensures (a + b)[..|a + b| - 1] == a + b[..|b| - 1]
    ensures (a + b)[|a + b| - 1] == b[|b| - 1]
  {
  }

  lemma DigitsAppend(a: string, b: string)
    requires forall i :: 0 <= i < |a| ==> IsDigit(a[i])
    requires forall i :: 0 <= i < |b| ==> IsDigit(b[i])
    ensures forall i :: 0 <= i < |a + b| ==> IsDigit((a + b)[i])
  {
    forall i | 0 <= i < |a + b| ensures IsDigit((a + b)[i]) {
      if i < |a| { assert (a + b)[i] == a[i]; } else { assert (a + b)[i] == b[i - |a|]; }
    }
  }

  function Pow10(n: nat): nat
  {
    if n == 0 then 1 else 10 * Pow10(n - 1)
  }

  function DigitChar(d: nat): (c: char)
    requires d < 10
    ensures IsDigit(c) && DigitValue(c) == d
  {
    ('0' as int + d) as char
  }

  /** Python's `str(n)` for a natural number: its decimal digits. */
  function NatToString(n: nat): (r: string)
    ensures AllDigits(r)
    ensures DigitsValue(r) == n
    decreases n
  {
    if n < 10 then [DigitChar(n)]
    else
      var r := NatToString(n / 10) + [DigitChar(n % 10)];
      assert r[..|r| - 1] == NatToString(n / 10);
      r
  }

  /** Python's `str(i)` for any integer. */
  function IntToString(i: int): string
  {
    if i < 0 then "-" + NatToString(-i) else NatToString(i)
  }

  /** A four-digit year prints as four characters. */
  lemma {:induction false} NatToStringFourDigits(n: nat)
    requires 1000 <= n <= 9999
    ensures |NatToString(n)| == 4
  {
    assert |NatToString(n / 1000)| == 1;
    assert |NatToString(n / 100)| == 2;
    assert |NatToString(n / 10)| == 3;
  }
}
