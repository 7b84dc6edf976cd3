/** The text normalizer of bcli.py: year tokens, dot-notation name queries,
    position codes, award codes, stat labels and categories, the two-way
    player name check, and team abbreviations. */
module Parsing {
  import opened Wrappers
  import opened Seqs
  import opened Text

  // ---------------------------------------------------------------- years

  /** parse_year_filter: "22" means 2022, "2022" means 2022, anything else
      (including the empty token) is rejected. */
  function ParseYearFilter(year: string): (r: Option<int>)
    ensures r.Some? <==> (|year| == 2 || |year| == 4) && AllDigits(year)
    ensures r.Some? && |year| == 2 ==> r.value == 2000 + DigitsValue(year)
    ensures r.Some? && |year| == 4 ==> r.value == DigitsValue(year)
  {
    if year == "" then None
    else if |year| == 2 && AllDigits(year) then
      DigitsValueAppend("20", year);
      Some(DigitsValue("20" + year))
    else if |year| == 4 && AllDigits(year) then Some(DigitsValue(year))
    else None
  }

  /** A four-digit year printed by Python's str() parses back to itself. */
  lemma YearRoundTrip(y: int)
    requires 1000 <= y <= 9999
    ensures ParseYearFilter(IntToString(y)) == Some(y)
  {
    NatToStringFourDigits(y);
  }

  /** The last two digits of a year of this century parse back to that year. */
  lemma ShortYearRoundTrip(y: int)
    requires 2000 <= y <= 2099
    ensures var tok := [DigitChar((y - 2000) / 10), DigitChar((y - 2000) % 10)];
            ParseYearFilter(tok) == Some(y)
  {
    var tok := [DigitChar((y - 2000) / 10), DigitChar((y - 2000) % 10)];
    assert tok[..1] == [DigitChar((y - 2000) / 10)];
    assert tok[..1][..0] == [];
    assert DigitsValue(tok[..1]) == (y - 2000) / 10;
    assert DigitsValue(tok) == (y - 2000) / 10 * 10 + (y - 2000) % 10;
  }

  // ---------------------------------------------------------------- names

  /** The two halves of a name query: an optional first-name prefix and the
      last-name substring. */
  datatype NameQuery = NameQuery(first: Option<string>, last: string)

  function IndexOf(s: string, c: char): (i: nat)
    requires c in s
    ensures i < |s| && s[i] == c && c !in s[..i]
  {
    if s[0] == c then 0 else 1 + IndexOf(s[1..], c)
  }

  /** parse_name_query: "m.trout" is first "m", last "trout"; only the first
      dot splits, so the last part may itself contain dots. */
  function ParseNameQuery(q: string): (r: NameQuery)
    ensures '.' !in q ==> r == NameQuery(None, q)
    ensures '.' in q ==> r.first.Some? && '.' !in r.first.value && r.first.value + "." + r.last == q
  {
    if '.' !in q then NameQuery(None, q)
    else
      var i := IndexOf(q, '.');
      assert q[..i] + "." + q[i + 1..] == q;
      NameQuery(Some(q[..i]), q[i + 1..])
  }

  /** The first-name part ends at the first dot of the query. */
  lemma FirstPartEndsAtDot(query: string)
    requires '.' in query
    ensures ParseNameQuery(query).first.Some? && |ParseNameQuery(query).first.value| == IndexOf(query, '.')
    ensures ParseNameQuery(query).last == query[IndexOf(query, '.') + 1..]
  {
  }

  // ---------------------------------------------------------------- positions

  /** pos_map of parse_positions. */
  function PositionName(c: char): Option<string>
  {
    match c
    case '1' => Some("P")
    case '2' => Some("C")
    case '3' => Some("1B")
    case '4' => Some("2B")
    case '5' => Some("3B")
    case '6' => Some("SS")
    case '7' => Some("LF")
    case '8' => Some("CF")
    case '9' => Some("RF")
    case 'D' => Some("DH")
    case 'H' => Some("PH")
    case _ => None
  }

  /** The positions of one `/` group in first-seen order, each at most once;
      characters outside the map are dropped. */
  function GroupPositions(part: string): seq<string>
  {
    if part == [] then []
    else
      var earlier := GroupPositions(part[..|part| - 1]);
      var name := PositionName(part[|part| - 1]);
      if name.Some? && name.value !in earlier then earlier + [name.value] else earlier
  }

  /** What a group yields: no repetition, only names of characters in the
      group, and every mapped character of the group is represented. */
  lemma {:induction false} GroupPositionsSpec(part: string)
    ensures Distinct(GroupPositions(part))
    ensures forall n :: n in GroupPositions(part) ==> exists c :: c in part && PositionName(c) == Some(n)
    ensures forall c :: c in part && PositionName(c).Some? ==> PositionName(c).value in GroupPositions(part)
  {
    if part != [] {
      var init := part[..|part| - 1];
      GroupPositionsSpec(init);
      assert part == init + [part[|part| - 1]];
      assert forall c :: c in init ==> c in part;
    }
  }

  /** The joined text of every non-empty group, in order. */
  function GroupTexts(parts: seq<string>): seq<string>
  {
    if parts == [] then []
    else
      var names := GroupPositions(parts[0]);
      (if names != [] then [Join(names, ", ")] else []) + GroupTexts(parts[1..])
  }

  /** parse_positions: keep a leading `*`, decode each `/` group, drop empty
      groups. No group text starts with `*`, so the result carries the starter
      mark exactly when the code does. */
  function ParsePositions(code: string): (r: string)
    ensures code == "" ==> r == ""
    ensures code != "" ==> ((r != "" && r[0] == '*') <==> code[0] == '*')
  {
    if code == "" then ""
    else
      var body := if code[0] == '*' then code[1..] else code;
      GroupsTextNoStar(body);
      if code[0] == '*' then "*" + GroupsText(body) else GroupsText(body)
  }

  lemma GroupsTextNoStar(body: string)
    ensures GroupsText(body) == "" || GroupsText(body)[0] != '*'
  {
    var groups := GroupTexts(Split(body, '/'));
    GroupTextsStartWithLetters(Split(body, '/'));
    if groups != [] {
      assert groups[0] in groups;
      JoinHead(groups, " / ");
    }
  }

  /** The decoded `/` groups of a code without its star, joined by " / ". */
  function GroupsText(body: string): string
  {
    Join(GroupTexts(Split(body, '/')), " / ")
  }

  /** A starred code with two groups, each naming at least one position. */
  lemma StarredTwoGroups(a: string, b: string, ga: seq<string>, gb: seq<string>)
    requires '/' !in a && '/' !in b
    requires GroupPositions(a) == ga && GroupPositions(b) == gb && ga != [] && gb != []
    ensures ParsePositions("*" + a + "/" + b) == "*" + Join(ga, ", ") + " / " + Join(gb, ", ")
  {
    var ta, tb := Join(ga, ", "), Join(gb, ", ");
    StarredCode(a + "/" + b);
    TwoGroupsText(a, b);
    AppendAssoc("*", a, "/");
    AppendAssoc("*", a + "/", b);
    AppendAssoc("*", ta, " / ");
    AppendAssoc("*", ta + " / ", tb);
  }

  /** A leading `*` is kept and the rest is read as groups. */
  lemma StarredCode(body: string)
    ensures ParsePositions("*" + body) == "*" + GroupsText(body)
  {
    assert ("*" + body)[0] == '*' && ("*" + body)[1..] == body;
  }

  lemma TwoGroupsText(a: string, b: string)
    requires '/' !in a && '/' !in b
    requires GroupPositions(a) != [] && GroupPositions(b) != []
    ensures GroupsText(a + "/" + b) == Join(GroupPositions(a), ", ") + " / " + Join(GroupPositions(b), ", ")
  {
    SplitExample(a, b);
    TwoGroups(a, b);
    JoinTwo(Join(GroupPositions(a), ", "), Join(GroupPositions(b), ", "), " / ");
  }

  lemma PositionsExampleSingle()
    ensures ParsePositions("*6/D") == "*SS / DH"
  {
    GroupStep("", '6', []);
    GroupStep("", 'D', []);
    assert "" + ['6'] == "6" && "" + ['D'] == "D";
    StarredTwoGroups("6", "D", ["SS"], ["DH"]);
    assert "*" + "6" + "/" + "D" == "*6/D";
    assert "*" + Join(["SS"], ", ") + " / " + Join(["DH"], ", ") == "*SS / DH";
  }

  lemma PositionsExampleOrder()
    ensures ParsePositions("*98/HD4") == "*RF, CF / PH, DH, 2B"
  {
    OrderExampleGroups();
    OrderExampleText();
    assert "*" + "98" + "/" + "HD4" == "*98/HD4";
  }

  lemma OrderExampleGroups()
    ensures ParsePositions("*" + "98" + "/" + "HD4")
         == "*" + Join(["RF", "CF"], ", ") + " / " + Join(["PH", "DH", "2B"], ", ")
  {
    GroupStep("", '9', []);
    GroupStep("9", '8', ["RF"]);
    GroupStep("", 'H', []);
    GroupStep("H", 'D', ["PH"]);
    GroupStep("HD", '4', ["PH", "DH"]);
    StarredTwoGroups("98", "HD4", ["RF", "CF"], ["PH", "DH", "2B"]);
  }

  lemma OrderExampleText()
    ensures "*" + Join(["RF", "CF"], ", ") + " / " + Join(["PH", "DH", "2B"], ", ") == "*RF, CF / PH, DH, 2B"
  {
    assert Join(["RF", "CF"], ", ") == "RF, CF";
    assert Join(["PH", "DH", "2B"], ", ") == "PH, DH, 2B";
  }

  lemma PositionsExamplePitcher()
    ensures ParsePositions("*D1/H97") == "*DH, P / PH, RF, LF"
  {
    PitcherGroups();
    StarredTwoGroups("D1", "H97", ["DH", "P"], ["PH", "RF", "LF"]);
    PitcherExampleText();
    assert "*" + "D1" + "/" + "H97" == "*D1/H97";
  }

  lemma PitcherGroups()
    ensures GroupPositions("D1") == ["DH", "P"]
    ensures GroupPositions("H97") == ["PH", "RF", "LF"]
  {
    GroupStep("", 'D', []);
    GroupStep("D", '1', ["DH"]);
    GroupStep("", 'H', []);
    GroupStep("H", '9', ["PH"]);
    GroupStep("H9", '7', ["PH", "RF"]);
    assert "" + ['D'] + ['1'] == "D1";
    assert "" + ['H'] + ['9'] + ['7'] == "H97";
  }

  lemma PitcherExampleText()
    ensures "*" + Join(["DH", "P"], ", ") + " / " + Join(["PH", "RF", "LF"], ", ") == "*DH, P / PH, RF, LF"
  {
    assert Join(["DH", "P"], ", ") == "DH, P";
    assert Join(["PH", "RF", "LF"], ", ") == "PH, RF, LF";
  }

  /** One more character of a group: its position is added unless already there. */
  lemma GroupStep(part: string, c: char, names: seq<string>)
    requires GroupPositions(part) == names
    requires PositionName(c).Some? && PositionName(c).value !in names
    ensures GroupPositions(part + [c]) == names + [PositionName(c).value]
  {
    assert (part + [c])[..|part|] == part;
  }

  lemma TwoGroups(a: string, b: string)
    requires GroupPositions(a) != [] && GroupPositions(b) != []
    ensures GroupTexts([a, b]) == [Join(GroupPositions(a), ", "), Join(GroupPositions(b), ", ")]
  {
    assert [b][1..] == [];
    assert GroupTexts([b]) == [Join(GroupPositions(b), ", ")] + GroupTexts([]);
    assert [a, b][1..] == [b];
  }

  lemma JoinTwo(x: string, y: string, sep: string)
    ensures Join([x, y], sep) == x + sep + y
  {
    assert [x, y][1..] == [y];
  }

  lemma SplitExample(a: string, b: string)
    requires '/' !in a && '/' !in b
    ensures Split(a + "/" + b, '/') == [a, b]
  {
    SplitAtFirst(a, '/', b);
    SplitNoSeparator(b, '/');
  }

  /** Every group text starts with a position name's first character, never `*`. */
  lemma {:induction false} GroupTextsStartWithLetters(parts: seq<string>)
    ensures forall t :: t in GroupTexts(parts) ==> t != "" && t[0] != '*'
  {
    if parts != [] {
      GroupTextsStartWithLetters(parts[1..]);
      var names := GroupPositions(parts[0]);
      if names != [] {
        GroupPositionsSpec(parts[0]);
        assert names[0] in names;
        JoinHead(names, ", ");
      }
    }
  }

  /** A join of non-empty parts starts with the first part's first character. */
  lemma JoinHead(parts: seq<string>, sep: string)
    requires parts != [] && parts[0] != ""
    ensures Join(parts, sep) != "" && Join(parts, sep)[0] == parts[0][0]
  {
  }

  /** parse_positions as bcli.py runs it: drop the star, decode the groups,
      put the star back. */
  method ParsePositionsLoop(code: string) returns (result: string)
    ensures result == ParsePositions(code)
  {
    if code == "" { return ""; }
    var hasStar := code[0] == '*';
    var body := if hasStar then code[1..] else code;
    var resultParts := DecodeGroups(Split(body, '/'));
    result := Join(resultParts, " / ");
    if hasStar { result := "*" + result; }
  }

  /** The loop over the `/` groups of parse_positions, keeping the non-empty ones. */
  method DecodeGroups(parts: seq<string>) returns (resultParts: seq<string>)
    ensures resultParts == GroupTexts(parts)
  {
    resultParts := [];
    var k := 0;
    assert parts[k..] == parts;
    while k < |parts|
      invariant k <= |parts|
      invariant resultParts + GroupTexts(parts[k..]) == GroupTexts(parts)
    {
      var positionsInPart := CollectGroup(parts[k]);
      GroupTextsStep(parts, k);
      if positionsInPart != [] {
        resultParts := resultParts + [Join(positionsInPart, ", ")];
      }
      k := k + 1;
    }
    assert parts[k..] == [];
  }

  lemma GroupTextsStep(parts: seq<string>, k: nat)
    requires k < |parts|
    ensures GroupTexts(parts[k..]) == (if GroupPositions(parts[k]) != [] then [Join(GroupPositions(parts[k]), ", ")] else [])
                                      + GroupTexts(parts[k + 1..])
  {
    assert parts[k..][1..] == parts[k + 1..];
  }

  /** The inner loop of parse_positions: the characters of one group, with a
      `seen_in_part` set. */
  method CollectGroup(part: string) returns (positionsInPart: seq<string>)
    ensures positionsInPart == GroupPositions(part)
  {
    positionsInPart := [];
    var seenInPart: set<string> := {};
    for j := 0 to |part|
      invariant positionsInPart == GroupPositions(part[..j])
      invariant forall n :: n in seenInPart <==> n in positionsInPart
    {
      assert part[..j + 1][..j] == part[..j];
      var name := PositionName(part[j]);
      if name.Some? && name.value !in seenInPart {
        seenInPart := seenInPart + {name.value};
        positionsInPart := positionsInPart + [name.value];
      }
    }
    assert part[..|part|] == part;
  }

  // ---------------------------------------------------------------- awards

  /** The award patterns of parse_awards, in the order they are tried. */
  datatype AwardPattern = Ranked(prefix: string) | Code(text: string)

  const AwardPatterns: seq<AwardPattern> :=
    [Ranked("MVP-"), Ranked("CYA-"), Ranked("ROY-"), Code("AS"), Code("GG"), Code("SS")]

  /** `re.match(pattern, s)`: the length of the match at the start of `s`.
      A ranked pattern takes one or two digits, greedily. */
  function MatchPattern(p: AwardPattern, s: string): (r: Option<nat>)
    ensures r.Some? ==> 2 <= r.value <= |s|
  {
    match p
    case Code(t) => if |t| == 2 && StartsWith(s, t) then Some(2) else None
    case Ranked(pre) =>
      if |pre| == 4 && StartsWith(s, pre) && |s| > 4 && IsDigit(s[4]) then
        (if |s| > 5 && IsDigit(s[5]) then Some(6) else Some(5))
      else None
  }

  /** The first pattern (in priority order) matching at the start of `s`. */
  function FirstMatch(pats: seq<AwardPattern>, s: string): (r: Option<nat>)
    ensures r.Some? ==> 2 <= r.value <= |s|
  {
    if pats == [] then None
    else if MatchPattern(pats[0], s).Some? then MatchPattern(pats[0], s)
    else FirstMatch(pats[1..], s)
  }

  /** The award codes read from `s` left to right; a character no pattern
      matches at is skipped. */
  function AwardTokens(s: string): seq<string>
    decreases |s|
  {
    if s == [] then []
    else match FirstMatch(AwardPatterns, s)
      case Some(n) => [s[..n]] + AwardTokens(s[n..])
      case None => AwardTokens(s[1..])
  }

  lemma AwardTokensMatched(s: string, n: nat)
    requires s != [] && FirstMatch(AwardPatterns, s) == Some(n)
    ensures AwardTokens(s) == [s[..n]] + AwardTokens(s[n..])
  {
  }

  lemma PatternsTail(k: nat)
    requires k < |AwardPatterns|
    ensures AwardPatterns[k..][0] == AwardPatterns[k] && AwardPatterns[k..][1..] == AwardPatterns[k + 1..]
  {
  }

  lemma DropDrop(s: string, i: nat, n: nat)
    requires i + n <= |s|
    ensures s[i..][n..] == s[i + n..]
  {
  }

  /** parse_awards: None for an empty string; the codes joined by ", ", or the
      input itself when no code matched. What it lists are well-formed codes,
      and it never returns empty text. */
  function ParseAwards(s: string): (r: Option<string>)
    ensures r.None? <==> s == ""
    ensures r.Some? ==> r.value != ""
    ensures r.Some? && AwardTokens(s) != [] ==>
      r.value == Join(AwardTokens(s), ", ") && forall t :: t in AwardTokens(s) ==> IsAwardCode(t)
    ensures r.Some? && AwardTokens(s) == [] ==> r.value == s
  {
    if s == "" then None
    else
      var tokens := AwardTokens(s);
      AwardTokensAreCodes(s);
      if tokens == [] then Some(s)
      else
        assert tokens[0] in tokens;
        JoinNonEmpty(tokens, ", ");
        Some(Join(tokens, ", "))
  }

  /** A join whose first part is not empty is not empty. */
  lemma JoinNonEmpty(parts: seq<string>, sep: string)
    requires parts != [] && parts[0] != ""
    ensures Join(parts, sep) != ""
  {
  }

  /** A well-formed award code: a ranked award with a one- or two-digit rank, or AS, GG, SS. */
  predicate IsAwardCode(t: string)
  {
    || t == "AS" || t == "GG" || t == "SS"
    || ((|t| == 5 || |t| == 6) && (t[..4] == "MVP-" || t[..4] == "CYA-" || t[..4] == "ROY-")
        && forall i :: 4 <= i < |t| ==> IsDigit(t[i]))
  }

  /** The six patterns tried in order, written out. */
  lemma FirstMatchUnfold(s: string)
    ensures FirstMatch(AwardPatterns, s) ==
      if MatchPattern(Ranked("MVP-"), s).Some? then MatchPattern(Ranked("MVP-"), s)
      else if MatchPattern(Ranked("CYA-"), s).Some? then MatchPattern(Ranked("CYA-"), s)
      else if MatchPattern(Ranked("ROY-"), s).Some? then MatchPattern(Ranked("ROY-"), s)
      else if MatchPattern(Code("AS"), s).Some? then Some(2)
      else if MatchPattern(Code("GG"), s).Some? then Some(2)
      else if MatchPattern(Code("SS"), s).Some? then Some(2)
      else None
  {
    var p := AwardPatterns;
    FirstMatchCons(p, s);
    FirstMatchCons(p[1..], s);
    FirstMatchCons(p[2..], s);
    FirstMatchCons(p[3..], s);
    FirstMatchCons(p[4..], s);
    FirstMatchCons(p[5..], s);
    assert p[1..][1..] == p[2..] && p[2..][1..] == p[3..] && p[3..][1..] == p[4..];
    assert p[4..][1..] == p[5..] && p[5..][1..] == [];
  }

  lemma FirstMatchCons(pats: seq<AwardPattern>, s: string)
    requires pats != []
    ensures FirstMatch(pats, s) == if MatchPattern(pats[0], s).Some? then MatchPattern(pats[0], s) else FirstMatch(pats[1..], s)
  {
  }

  /** A ranked pattern matches a well-formed code wholly, or not at all. */
  lemma RankedMatch(pre: string, s: string, n: nat)
    requires pre == "MVP-" || pre == "CYA-" || pre == "ROY-"
    requires MatchPattern(Ranked(pre), s) == Some(n)
    ensures IsAwardCode(s[..n])
  {
    assert s[..n][..4] == s[..4] == pre;
  }

  lemma FirstMatchIsCode(s: string)
    requires FirstMatch(AwardPatterns, s).Some?
    ensures IsAwardCode(s[..FirstMatch(AwardPatterns, s).value])
  {
    FirstMatchUnfold(s);
    var n := FirstMatch(AwardPatterns, s).value;
    if MatchPattern(Ranked("MVP-"), s).Some? {
      RankedMatch("MVP-", s, n);
    } else if MatchPattern(Ranked("CYA-"), s).Some? {
      RankedMatch("CYA-", s, n);
    } else if MatchPattern(Ranked("ROY-"), s).Some? {
      RankedMatch("ROY-", s, n);
    } else {
      assert n == 2 && s[..n] == s[..2];
    }
  }

  /** Everything parse_awards reports is a well-formed award code. */
  lemma {:induction false} AwardTokensAreCodes(s: string)
    ensures forall t :: t in AwardTokens(s) ==> IsAwardCode(t)
    decreases |s|
  {
    if s != [] {
      match FirstMatch(AwardPatterns, s)
      case Some(n) =>
        FirstMatchIsCode(s);
        AwardTokensAreCodes(s[n..]);
      case None =>
        AwardTokensAreCodes(s[1..]);
    }
  }

  /** Concatenation of award codes, as the season reports write them. */
  function Concat(ts: seq<string>): string
  {
    if ts == [] then "" else ts[0] + Concat(ts[1..])
  }

  lemma {:induction false} ConcatStartsWithLetter(ts: seq<string>)
    requires forall t :: t in ts ==> IsAwardCode(t)
    ensures Concat(ts) == [] || !IsDigit(Concat(ts)[0])
  {
    if ts != [] {
      assert ts[0] in ts;
      var t := ts[0];
      assert t[0] == 'A' || t[0] == 'G' || t[0] == 'S' || t[0] == 'M' || t[0] == 'C' || t[0] == 'R' by {
        if |t| >= 5 { assert t[0] == t[..4][0]; }
      }
      assert Concat(ts)[0] == t[0];
    }
  }

  /** Reading one code off the front of a string: the code comes out whole
      when the next character is not a digit. */
  lemma ReadOneCode(t: string, rest: string)
    requires IsAwardCode(t)
    requires rest == [] || !IsDigit(rest[0])
    ensures AwardTokens(t + rest) == [t] + AwardTokens(rest)
  {
    var s := t + rest;
    assert s[..|t|] == t && s[|t|..] == rest;
    FirstMatchUnfold(s);
    if |t| == 2 {
      assert s[..2] == t;
      assert t[0] == 'A' || t[0] == 'G' || t[0] == 'S';
      assert !StartsWith(s, "MVP-") && !StartsWith(s, "CYA-") && !StartsWith(s, "ROY-") by {
        assert |s| < 4 || s[..4][0] == t[0];
      }
      assert FirstMatch(AwardPatterns, s) == Some(2);
    } else {
      assert s[..4] == t[..4];
      assert s[4] == t[4];
      if |t| == 6 { assert s[5] == t[5]; } else { assert rest == [] || s[5] == rest[0]; }
      var pre := t[..4];
      assert MatchPattern(Ranked(pre), s) == Some(|t|);
      if pre == "CYA-" {
        assert !StartsWith(s, "MVP-") by { assert s[..4][0] == 'C'; }
      } else if pre == "ROY-" {
        assert !StartsWith(s, "MVP-") by { assert s[..4][0] == 'R'; }
        assert !StartsWith(s, "CYA-") by { assert s[..4][0] == 'R'; }
      }
      assert FirstMatch(AwardPatterns, s) == Some(|t|);
    }
  }

  /** Round trip: concatenated award codes are read back exactly as the list of codes. */
  lemma {:induction false} AwardTokensOfConcat(ts: seq<string>)
    requires forall t :: t in ts ==> IsAwardCode(t)
    ensures AwardTokens(Concat(ts)) == ts
  {
    if ts != [] {
      assert ts[0] in ts;
      assert forall t :: t in ts[1..] ==> t in ts;
      ConcatStartsWithLetter(ts[1..]);
      ReadOneCode(ts[0], Concat(ts[1..]));
      AwardTokensOfConcat(ts[1..]);
    }
  }

  /** parse_awards renders concatenated codes as the codes joined by ", ". */
  lemma ParseAwardsRoundTrip(ts: seq<string>)
    requires ts != [] && forall t :: t in ts ==> IsAwardCode(t)
    ensures ParseAwards(Concat(ts)) == Some(Join(ts, ", "))
  {
    AwardTokensOfConcat(ts);
    assert ts[0] in ts;
  }

  lemma AwardsExamples()
    ensures ParseAwards("MVP-1AS") == Some("MVP-1, AS")
    ensures ParseAwards("") == None
  {
    assert IsAwardCode("MVP-1") by { assert "MVP-1"[..4] == "MVP-"; }
    assert Join(["MVP-1", "AS"], ", ") == "MVP-1, AS";
    ParseAwardsRoundTrip(["MVP-1", "AS"]);
    assert Concat(["MVP-1", "AS"]) == "MVP-1AS";
  }

  /** A two-digit place after a first place is its own award. */
  lemma AwardsPlaceExample()
    ensures ParseAwards("CYA-1MVP-13") == Some("CYA-1, MVP-13")
  {
    assert IsAwardCode("CYA-1") by { assert "CYA-1"[..4] == "CYA-"; }
    assert IsAwardCode("MVP-13") by { assert "MVP-13"[..4] == "MVP-"; }
    assert Join(["CYA-1", "MVP-13"], ", ") == "CYA-1, MVP-13";
    ParseAwardsRoundTrip(["CYA-1", "MVP-13"]);
    assert Concat(["CYA-1", "MVP-13"]) == "CYA-1MVP-13";
  }

  /** parse_awards as bcli.py runs it: a position that advances by the match
      length, or by one character when nothing matched. */
  method ParseAwardsLoop(awardsStr: string) returns (r: Option<string>)
    ensures r == ParseAwards(awardsStr)
  {
    if awardsStr == "" { return None; }
    var awards: seq<string> := [];
    var pos := 0;
    while pos < |awardsStr|
      invariant 0 <= pos <= |awardsStr|
      invariant awards + AwardTokens(awardsStr[pos..]) == AwardTokens(awardsStr)
      decreases |awardsStr| - pos
    {
      var rest := awardsStr[pos..];
      var matched := false;
      var k := 0;
      while k < |AwardPatterns|
        invariant 0 <= k <= |AwardPatterns|
        invariant FirstMatch(AwardPatterns, rest) == FirstMatch(AwardPatterns[k..], rest)
        invariant !matched
      {
        var m := MatchPattern(AwardPatterns[k], rest);
        PatternsTail(k);
        if m.Some? {
          assert FirstMatch(AwardPatterns, rest) == m;
          AwardTokensMatched(rest, m.value);
          AppendAssoc(awards, [rest[..m.value]], AwardTokens(rest[m.value..]));
          DropDrop(awardsStr, pos, m.value);
          awards := awards + [rest[..m.value]];
          pos := pos + m.value;
          matched := true;
          break;
        }
        k := k + 1;
      }
      if !matched {
        assert AwardPatterns[k..] == [];
        assert FirstMatch(AwardPatterns, rest) == None;
        DropDrop(awardsStr, pos, 1);
        pos := pos + 1;
      }
    }
    assert awardsStr[pos..] == [];
    assert awards == AwardTokens(awardsStr);
    r := Some(if awards == [] then awardsStr else Join(awards, ", "));
  }

  // ---------------------------------------------------------------- stat labels

  /** A stat's database key and its display label. */
  datatype StatLabel = StatLabel(key: string, display: string)

  /** The special spellings normalize_stat_label knows, keyed by the
      lower-cased token. */
  const SpecialMappings: seq<(string, StatLabel)> := [
    ("w-l%", StatLabel("w_l_pct", "W-L%")),
    ("so/bb", StatLabel("so_bb", "SO/BB")),
    ("era+", StatLabel("era_plus", "ERA+")),
    ("ops+", StatLabel("ops_plus", "OPS+")),
    ("rbat+", StatLabel("rbat_plus", "Rbat+")),
    ("2b", StatLabel("doubles", "2B")),
    ("3b", StatLabel("triples", "3B")),
    ("h/9", StatLabel("h9", "H/9")),
    ("hr/9", StatLabel("hr9", "HR/9")),
    ("bb/9", StatLabel("bb9", "BB/9")),
    ("so/9", StatLabel("so9", "SO/9"))]

  /** Dictionary lookup in a table of (key, value) pairs. */
  function LookupLabel(low: string, table: seq<(string, StatLabel)>): (r: Option<StatLabel>)
    ensures r.Some? <==> exists i :: 0 <= i < |table| && table[i].0 == low
    ensures r.Some? ==> exists i :: 0 <= i < |table| && table[i] == (low, r.value)
  {
    if table == [] then None
    else if table[0].0 == low then Some(table[0].1)
    else
      var r := LookupLabel(low, table[1..]);
      assert forall i :: 0 <= i < |table| - 1 ==> table[1..][i] == table[i + 1];
      r
  }

  function SpecialLabel(low: string): Option<StatLabel>
  {
    LookupLabel(low, SpecialMappings)
  }

  function ReplaceSeparators(s: string): (r: string)
    ensures |r| == |s|
    ensures forall i :: 0 <= i < |s| ==> r[i] == (if s[i] == '-' || s[i] == '/' then '_' else s[i])
  {
    if s == [] then [] else [if s[0] == '-' || s[0] == '/' then '_' else s[0]] + ReplaceSeparators(s[1..])
  }

  /** normalize_stat_label: the special spellings, otherwise the lower-cased
      token with `-` and `/` turned into `_` and the upper-cased token as label. */
  function NormalizeStatLabel(stat: string): (r: StatLabel)
    ensures SpecialLabel(Lower(stat)).Some? ==> r == SpecialLabel(Lower(stat)).value
    ensures SpecialLabel(Lower(stat)).None? ==> r.display == Upper(stat) && '-' !in r.key && '/' !in r.key
    ensures SpecialLabel(Lower(stat)).None? ==>
      && |r.key| == |stat|
      && forall i :: 0 <= i < |stat| ==> r.key[i] == (if stat[i] == '-' || stat[i] == '/' then '_' else LowerChar(stat[i]))
  {
    var low := Lower(stat);
    match SpecialLabel(low)
    case Some(l) => l
    case None =>
      var key := ReplaceSeparators(low);
      assert forall i :: 0 <= i < |key| ==> key[i] != '-' && key[i] != '/';
      StatLabel(key, Upper(stat))
  }

  /** The normalized form does not depend on the case of the token. */
  lemma NormalizeIgnoresCase(stat: string)
    ensures NormalizeStatLabel(Lower(stat)) == NormalizeStatLabel(stat)
  {
    LowerIdempotent(stat);
    UpperOfLower(stat);
  }

  // ---------------------------------------------------------------- stat categories

  datatype Category = PitcherStat | HitterStat | CommonStat

  const PitcherOnlyAsWritten: set<string> := {
    "w", "l", "w_l_pct", "era", "gs", "gf", "cg", "sho", "sv", "ip",
    "er", "ibb", "hbp", "bk", "wp", "bf", "era_plus", "fip", "whip",
    "h9", "hr9", "bb9", "so9", "so_bb"}

  const HitterOnly: set<string> := {
    "pa", "ab", "doubles", "triples", "rbi", "sb", "cs", "ba", "obp",
    "slg", "ops", "ops_plus", "roba", "rbat_plus", "tb", "gidp",
    "sh", "sf", "pos"}

  /** get_stat_category as written: `ibb` and `hbp` are listed as pitcher-only.
      The two lists share no key, so the order of the two tests does not
      matter: a key is a hitter stat exactly when the hitter list has it. */
  function StatCategoryAsWritten(key: string): (c: Category)
    ensures c == PitcherStat <==> key in PitcherOnlyAsWritten
    ensures c == HitterStat <==> key in HitterOnly
    ensures c == CommonStat <==> key !in PitcherOnlyAsWritten && key !in HitterOnly
  {
    if key in PitcherOnlyAsWritten then PitcherStat
    else if key in HitterOnly then HitterStat
    else CommonStat
  }

  const PitcherOnly: set<string> := PitcherOnlyAsWritten - {"ibb", "hbp"}

  /** get_stat_category with `ibb` and `hbp` treated as common stats, which
      both tables carry; every other key keeps the category as written. */
  function StatCategory(key: string): (c: Category)
    ensures c == PitcherStat <==> key in PitcherOnly
    ensures c == HitterStat <==> key in HitterOnly
    ensures key == "ibb" || key == "hbp" ==> c == CommonStat
    ensures key != "ibb" && key != "hbp" ==> c == StatCategoryAsWritten(key)
  {
    if key in PitcherOnly then PitcherStat
    else if key in HitterOnly then HitterStat
    else CommonStat
  }

  // ---------------------------------------------------------------- names and teams

  /** is_ohtani: "shohei ohtani" occurs somewhere in the marker-stripped,
      lower-cased name. */
  predicate IsOhtani(playerName: string)
    ensures IsOhtani(playerName) <==> exists i :: OccursAt(Lower(StripMarkers(playerName)), "shohei ohtani", i)
  {
    ContainsAt(Lower(StripMarkers(playerName)), "shohei ohtani");
    Contains(Lower(StripMarkers(playerName)), "shohei ohtani")
  }

  /** is_ohtani ignores marker characters. */
  lemma IsOhtaniIgnoresMarkers(playerName: string)
    ensures IsOhtani(StripMarkers(playerName)) == IsOhtani(playerName)
  {
    var once := StripMarkers(playerName);
    StripMarkersIdempotent(playerName);
    assert Lower(StripMarkers(once)) == Lower(once);
  }

  /** get_full_team_name's table. */
  const TeamNames: map<string, string> := map[
    "ARI" := "Arizona Diamondbacks", "ATH" := "Athletics", "ATL" := "Atlanta Braves",
    "BAL" := "Baltimore Orioles", "BOS" := "Boston Red Sox", "CHC" := "Chicago Cubs",
    "CHW" := "Chicago White Sox", "CIN" := "Cincinnati Reds", "CLE" := "Cleveland Guardians",
    "COL" := "Colorado Rockies", "DET" := "Detroit Tigers", "HOU" := "Houston Astros",
    "KCR" := "Kansas City Royals", "LAA" := "Los Angeles Angels", "LAD" := "Los Angeles Dodgers",
    "MIA" := "Miami Marlins", "MIL" := "Milwaukee Brewers", "MIN" := "Minnesota Twins",
    "NYM" := "New York Mets", "NYY" := "New York Yankees", "OAK" := "Oakland Athletics",
    "PHI" := "Philadelphia Phillies", "PIT" := "Pittsburgh Pirates", "SDP" := "San Diego Padres",
    "SEA" := "Seattle Mariners", "SFG" := "San Francisco Giants", "STL" := "St. Louis Cardinals",
    "TBR" := "Tampa Bay Rays", "TEX" := "Texas Rangers", "TOR" := "Toronto Blue Jays",
    "WSN" := "Washington Nationals"]

  /** get_full_team_name: the full name for a known abbreviation, the
      abbreviation itself otherwise. */
  function FullTeamName(abbr: string): (r: string)
    ensures abbr in TeamNames ==> r == TeamNames[abbr]
    ensures r == abbr <==> abbr !in TeamNames
  {
    if abbr in TeamNames then
      NoTeamNameIsAbbreviation();
      TeamNames[abbr]
    else abbr
  }

  /** No club name is itself one of the abbreviations; in particular no
      abbreviation maps to itself. */
  lemma NoTeamNameIsAbbreviation()
    ensures forall a :: a in TeamNames ==> TeamNames[a] !in TeamNames
  {
    AbbreviationsAreShort();
    TeamNamesAreLong();
    forall a | a in TeamNames ensures TeamNames[a] !in TeamNames {
      assert |TeamNames[a]| > 3;
    }
  }

  lemma AbbreviationsAreShort()
    ensures forall a :: a in TeamNames ==> |a| == 3
  {
  }

  lemma TeamNamesAreLong()
    ensures forall a :: a in TeamNames ==> |TeamNames[a]| > 3
  {
  }

  /** Converting a converted name changes nothing. */
  lemma FullTeamNameIdempotent(abbr: string)
    ensures FullTeamName(FullTeamName(abbr)) == FullTeamName(abbr)
  {
    NoTeamNameIsAbbreviation();
  }
}
