/** The command-line text form of match criteria: `gpu:true,os:linux,skill:docker`. */
module MatchText {
  import opened MeshTypes

  // ---------- the string functions of the Go library that the two directions rely on ----------

  /** White space as `strings.TrimSpace` sees it. */
  predicate IsSpace(c: char) {
    || c in {'\t', '\n', '\U{0B}', '\U{0C}', '\r', ' ', '\U{85}', '\U{A0}', '\U{1680}'}
    || '\U{2000}' <= c <= '\U{200A}'
    || c in {'\U{2028}', '\U{2029}', '\U{202F}', '\U{205F}', '\U{3000}'}
  }

  function TrimLeft(s: string): string {
    if s != "" && IsSpace(s[0]) then TrimLeft(s[1..]) else s
  }

  function TrimRight(s: string): string {
    if s != "" && IsSpace(s[|s| - 1]) then TrimRight(s[..|s| - 1]) else s
  }

  function TrimSpace(s: string): string {
    TrimRight(TrimLeft(s))
  }

  /** Pieces between commas; there is always at least one. */
  function Split(s: string): (parts: seq<string>)
    ensures |parts| > 0
  {
    if s == "" then [""]
    else
      var rest := Split(s[1..]);
      if s[0] == ',' then [""] + rest else [[s[0]] + rest[0]] + rest[1..]
  }

  function Join(parts: seq<string>): string {
    if |parts| == 0 then ""
    else if |parts| == 1 then parts[0]
    else parts[0] + "," + Join(parts[1..])
  }

  /** Key and value around the first colon. */
  function CutColon(s: string): Option<(string, string)> {
    if s == "" then None
    else if s[0] == ':' then Some(("", s[1..]))
    else
      match CutColon(s[1..])
      case None => None
      case Some(kv) => Some(([s[0]] + kv.0, kv.1))
  }

  // ---------- parsing ----------

  function ParsePart(mc: MatchCriteria, part: string): MatchCriteria {
    match CutColon(TrimSpace(part))
    case None => mc
    case Some(kv) =>
      if kv.0 == "gpu" then mc.(gpu := Some(kv.1 == "true"))
      else if kv.0 == "os" then mc.(os := kv.1)
      else if kv.0 == "skill" then mc.(skill := kv.1)
      else mc
  }

  function ParseParts(parts: seq<string>): MatchCriteria {
    if parts == [] then ANY_NODE
    else ParsePart(ParseParts(parts[..|parts| - 1]), parts[|parts| - 1])
  }

  function ParseMatch(s: string): MatchCriteria {
    ParseParts(Split(s))
  }

  method BuildRuleFromMatch(matchStr: string, target: string) returns (rule: RoutingRule)
    ensures rule == RoutingRule("", ParseMatch(matchStr), target, "")
  {
    rule := RoutingRule("", ANY_NODE, target, "");
    var parts := Split(matchStr);
    for i := 0 to |parts|
      invariant rule == RoutingRule("", ParseParts(parts[..i]), target, "")
    {
      assert parts[..i + 1][..i] == parts[..i];
      var kv := CutColon(TrimSpace(parts[i]));
      if kv.None? {
        continue;
      }
      match kv.value.0 {
        case "gpu" =>
          var t := kv.value.1 == "true";
          rule := rule.(criteria := rule.criteria.(gpu := Some(t)));
        case "os" => rule := rule.(criteria := rule.criteria.(os := kv.value.1));
        case "skill" => rule := rule.(criteria := rule.criteria.(skill := kv.value.1));
        case _ =>
      }
    }
    assert parts[..|parts|] == parts;
  }

  // ---------- printing ----------

  /** One piece `key:value`, left out when the value is empty. */
  function Piece(key: string, value: string): seq<string> {
    if value == "" then [] else [key + ":" + value]
  }

  function DescribedParts(mc: MatchCriteria): seq<string> {
    Piece("gpu", if mc.gpu == Some(true) then "true" else "") + Piece("os", mc.os) + Piece("skill", mc.skill)
  }

  function Describe(mc: MatchCriteria): string {
    if IsWildcard(mc) then "*"
    else if DescribedParts(mc) == [] then "-"
    else Join(DescribedParts(mc))
  }

  method DescribeMatch(mc: MatchCriteria) returns (text: string)
    ensures text == Describe(mc)
  {
    if mc.wildcard.Some? && mc.wildcard.value {
      return "*";
    }
    var parts: seq<string> := [];
    if mc.gpu.Some? && mc.gpu.value {
      parts := parts + ["gpu" + ":" + "true"];
    }
    if mc.os != "" {
      parts := parts + ["os" + ":" + mc.os];
    }
    if mc.skill != "" {
      parts := parts + ["skill" + ":" + mc.skill];
    }
    assert parts == DescribedParts(mc);
    if |parts| == 0 {
      return "-";
    }
    return Join(parts);
  }

  /** A wildcard prints as a star, criteria that ask for nothing as a dash, and any others as the pieces
      for gpu, os and skill, in this order, with commas between them. */
  lemma PrintedForm(mc: MatchCriteria)
    ensures mc.wildcard == Some(true) ==> Describe(mc) == "*"
    ensures mc.wildcard != Some(true) && (forall n :: MatchesCriteria(mc, n)) ==> Describe(mc) == "-"
    ensures mc.wildcard != Some(true) && !(forall n :: MatchesCriteria(mc, n)) ==>
              Describe(mc) + "," ==
                (if mc.gpu == Some(true) then "gpu:true," else "") + (if mc.os != "" then "os:" + mc.os + "," else "")
                + (if mc.skill != "" then "skill:" + mc.skill + "," else "")
  {
    var bare := NodeInfo(Profile("", "", "", "", "", false, 0), [], [], Online, 0);
    assert "gpu" + ":" + "true" + "," == "gpu:true," && "os" + ":" == "os:" && "skill" + ":" == "skill:";
    if mc.wildcard != Some(true) && !MatchesCriteria(mc, bare) {
      JoinedPieces(mc);
    }
  }

  lemma JoinedPieces(mc: MatchCriteria)
    requires DescribedParts(mc) != []
    ensures Join(DescribedParts(mc)) + "," ==
              (if mc.gpu == Some(true) then "gpu" + ":" + "true" + "," else "")
              + (if mc.os != "" then "os" + ":" + mc.os + "," else "")
              + (if mc.skill != "" then "skill" + ":" + mc.skill + "," else "")
  {
    JoinMore(Piece("gpu", if mc.gpu == Some(true) then "true" else ""), Piece("os", mc.os) + Piece("skill", mc.skill));
    JoinMore(Piece("os", mc.os), Piece("skill", mc.skill));
  }

  lemma JoinMore(p: seq<string>, rest: seq<string>)
    requires |p| <= 1
    ensures p != [] && rest != [] ==> Join(p + rest) == p[0] + "," + Join(rest)
    ensures p == [] ==> Join(p + rest) == Join(rest)
    ensures rest == [] ==> Join(p + rest) == Join(p)
  {
    assert p == [] ==> p + rest == rest;
    assert rest == [] ==> p + rest == p;
    assert p != [] ==> (p + rest)[1..] == rest;
  }

  // ---------- the library functions, characterised ----------

  /** `Split` cuts at every comma and loses nothing. */
  lemma {:induction false} SplitCutsAtCommas(s: string)
    ensures forall p | p in Split(s) :: ',' !in p
    ensures Join(Split(s)) == s
  {
    if s != "" {
      SplitCutsAtCommas(s[1..]);
      var rest := Split(s[1..]);
      if s[0] == ',' {
        assert ([""] + rest)[1..] == rest;
      } else {
        assert rest == [rest[0]] + rest[1..];
        assert rest[0] in rest;
        assert forall p | p in Split(s) :: p == [s[0]] + rest[0] || p in rest;
      }
    }
  }

  lemma {:induction false} SplitOfPieceAndMore(p: string, s: string)
    requires ',' !in p
    ensures Split(p + "," + s) == [p] + Split(s)
  {
    if p == "" {
      assert ("" + "," + s)[1..] == s;
    } else {
      SplitOfPieceAndMore(p[1..], s);
      assert (p + "," + s)[1..] == p[1..] + "," + s;
      assert [p[0]] + p[1..] == p;
    }
  }

  lemma {:induction false} SplitOfPiece(p: string)
    requires ',' !in p
    ensures Split(p) == [p]
  {
    if p != "" {
      SplitOfPiece(p[1..]);
      assert [p[0]] + p[1..] == p;
    }
  }

  /** Joining pieces without commas and splitting again gives the pieces back. */
  lemma {:induction false} SplitUndoesJoin(parts: seq<string>)
    requires parts != [] && forall p | p in parts :: ',' !in p
    ensures Split(Join(parts)) == parts
  {
    if |parts| == 1 {
      SplitOfPiece(parts[0]);
    } else {
      SplitUndoesJoin(parts[1..]);
      SplitOfPieceAndMore(parts[0], Join(parts[1..]));
      assert parts == [parts[0]] + parts[1..];
    }
  }

  predicate NoTrailingSpace(s: string) {
    s != "" ==> !IsSpace(s[|s| - 1])
  }

  lemma {:induction false} TrimRightShape(s: string)
    ensures NoTrailingSpace(TrimRight(s)) && TrimRight(s) <= s
  {
    if s != "" && IsSpace(s[|s| - 1]) {
      TrimRightShape(s[..|s| - 1]);
    }
  }

  lemma {:induction false} TrimLeftKeepsChars(s: string)
    ensures forall c | c in TrimLeft(s) :: c in s
  {
    if s != "" && IsSpace(s[0]) {
      TrimLeftKeepsChars(s[1..]);
    }
  }

  /** The white space characters of Unicode, by their numbers. */
  lemma SpaceCharacters(c: char)
    ensures IsSpace(c) <==>
              var n := c as int;
              || 0x09 <= n <= 0x0D || n == 0x20 || n == 0x85 || n == 0xA0 || n == 0x1680 || 0x2000 <= n <= 0x200A
              || n == 0x2028 || n == 0x2029 || n == 0x202F || n == 0x205F || n == 0x3000
    ensures c in {' ', '\t', '\n', '\r'} ==> IsSpace(c)
    ensures 'a' <= c <= 'z' || 'A' <= c <= 'Z' || '0' <= c <= '9' || c in {':', ',', '-', '_', '.', '*'} ==> !IsSpace(c)
  {
  }

  predicate AllSpace(s: string) {
    forall i :: 0 <= i < |s| ==> IsSpace(s[i])
  }

  predicate NoLeadingSpace(s: string) {
    s != "" ==> !IsSpace(s[0])
  }

  lemma {:induction false} TrimLeftShape(s: string) returns (a: string)
    ensures AllSpace(a) && s == a + TrimLeft(s) && NoLeadingSpace(TrimLeft(s))
  {
    a := "";
    if s != "" && IsSpace(s[0]) {
      a := TrimLeftShape(s[1..]);
      assert s == [s[0]] + s[1..];
      a := [s[0]] + a;
    }
  }

  lemma {:induction false} TrimRightCuts(s: string) returns (b: string)
    ensures AllSpace(b) && s == TrimRight(s) + b && NoTrailingSpace(TrimRight(s))
  {
    b := "";
    if s != "" && IsSpace(s[|s| - 1]) {
      b := TrimRightCuts(s[..|s| - 1]);
      assert s == s[..|s| - 1] + [s[|s| - 1]];
      b := b + [s[|s| - 1]];
    }
  }

  /** Trimming cuts white space at both ends and nothing else. */
  lemma TrimSpaceCuts(s: string) returns (a: string, b: string)
    ensures AllSpace(a) && AllSpace(b) && s == a + TrimSpace(s) + b
    ensures NoLeadingSpace(TrimSpace(s)) && NoTrailingSpace(TrimSpace(s))
  {
    a := TrimLeftShape(s);
    b := TrimRightCuts(TrimLeft(s));
    assert TrimSpace(s) != "" ==> TrimSpace(s)[0] == TrimLeft(s)[0];
  }

  /** There is only one way to cut it. */
  lemma TrimIsUnique(a: string, t: string, b: string, c: string, u: string, d: string)
    requires AllSpace(a) && AllSpace(b) && AllSpace(c) && AllSpace(d)
    requires NoLeadingSpace(t) && NoTrailingSpace(t) && NoLeadingSpace(u) && NoTrailingSpace(u)
    requires a + t + b == c + u + d
    ensures t == u
  {
    var s := a + t + b;
    if t == "" || u == "" {
      EmptyInSpace(a, t, b);
      EmptyInSpace(c, u, d);
    } else {
      assert s[|a|] == t[0] && s[|c|] == u[0] && |a| == |c|;
      assert s[|a| + |t| - 1] == t[|t| - 1] && s[|c| + |u| - 1] == u[|u| - 1] && |t| == |u|;
      assert t == s[|a|..|a| + |t|] && u == s[|c|..|c| + |u|];
    }
  }

  lemma EmptyInSpace(a: string, t: string, b: string)
    requires AllSpace(a) && AllSpace(b) && NoLeadingSpace(t)
    ensures t == "" <==> AllSpace(a + t + b)
  {
    if t != "" {
      assert (a + t + b)[|a|] == t[0];
    }
  }

  lemma TrimOfPadded(a: string, t: string, b: string)
    requires AllSpace(a) && AllSpace(b)
    ensures TrimSpace(a + t + b) == TrimSpace(t)
  {
    var c, d := TrimSpaceCuts(a + t + b);
    var e, f := TrimSpaceCuts(t);
    assert a + t + b == (a + e) + TrimSpace(t) + (f + b);
    TrimIsUnique(c, TrimSpace(a + t + b), d, a + e, TrimSpace(t), f + b);
  }

  lemma {:induction false} CutColonShape(s: string)
    requires CutColon(s).Some?
    ensures var (k, v) := CutColon(s).value; s == k + ":" + v && ':' !in k
  {
    if s[0] == ':' {
      assert s == "" + ":" + s[1..];
    } else {
      CutColonShape(s[1..]);
      var (k, v) := CutColon(s[1..]).value;
      assert s == [s[0]] + s[1..];
      assert s == ([s[0]] + k) + ":" + v;
    }
  }

  lemma {:induction false} CutColonOfPair(k: string, v: string)
    requires ':' !in k
    ensures CutColon(k + ":" + v) == Some((k, v))
  {
    if k == "" {
      assert ("" + ":" + v)[1..] == v;
    } else {
      CutColonOfPair(k[1..], v);
      assert (k + ":" + v)[1..] == k[1..] + ":" + v;
      assert [k[0]] + k[1..] == k;
    }
  }

  // ---------- what a parse can produce ----------

  /** A value that survives a print and parse. */
  predicate CleanValue(v: string) {
    ',' !in v && NoTrailingSpace(v)
  }

  predicate Clean(mc: MatchCriteria) {
    CleanValue(mc.os) && CleanValue(mc.skill)
  }

  lemma PartValueIsClean(part: string)
    requires ',' !in part
    ensures var kv := CutColon(TrimSpace(part)); kv.Some? ==> CleanValue(kv.value.1)
  {
    TrimLeftKeepsChars(part);
    TrimRightShape(TrimLeft(part));
    var t := TrimSpace(part);
    assert forall c | c in t :: c in TrimLeft(part);
    if CutColon(t).Some? {
      CutColonShape(t);
      var (k, v) := CutColon(t).value;
      assert forall i | 0 <= i < |v| :: v[i] == t[|k| + 1 + i];
    }
  }

  lemma {:induction false} PartsParseClean(parts: seq<string>)
    requires forall p | p in parts :: ',' !in p
    ensures Clean(ParseParts(parts)) && ParseParts(parts).wildcard == None
  {
    if parts != [] {
      PartsParseClean(parts[..|parts| - 1]);
      PartValueIsClean(parts[|parts| - 1]);
    }
  }

  /** No text parses to a wildcard or to a value with a comma or trailing white space. */
  lemma ParseIsClean(s: string)
    ensures Clean(ParseMatch(s)) && ParseMatch(s).wildcard == None
  {
    SplitCutsAtCommas(s);
    PartsParseClean(Split(s));
  }

  /** The key and value one piece of text sets, if any. */
  predicate Sets(part: string, key: string, value: string) {
    CutColon(TrimSpace(part)) == Some((key, value))
  }

  predicate SetsKey(part: string, key: string) {
    var kv := CutColon(TrimSpace(part));
    kv.Some? && kv.value.0 == key
  }

  /** The last piece that names a key decides its value; a key nobody names keeps its default. */
  lemma {:induction false} LastPieceWins(parts: seq<string>, i: nat, value: string)
    requires i < |parts|
    ensures Sets(parts[i], "gpu", value) && (forall j | i < j < |parts| :: !SetsKey(parts[j], "gpu"))
            ==> ParseParts(parts).gpu == Some(value == "true")
    ensures Sets(parts[i], "os", value) && (forall j | i < j < |parts| :: !SetsKey(parts[j], "os"))
            ==> ParseParts(parts).os == value
    ensures Sets(parts[i], "skill", value) && (forall j | i < j < |parts| :: !SetsKey(parts[j], "skill"))
            ==> ParseParts(parts).skill == value
  {
    if i < |parts| - 1 {
      LastPieceWins(parts[..|parts| - 1], i, value);
    }
  }

  lemma {:induction false} UnnamedKeysKeepDefaults(parts: seq<string>)
    ensures (forall p | p in parts :: !SetsKey(p, "gpu")) ==> ParseParts(parts).gpu == None
    ensures (forall p | p in parts :: !SetsKey(p, "os")) ==> ParseParts(parts).os == ""
    ensures (forall p | p in parts :: !SetsKey(p, "skill")) ==> ParseParts(parts).skill == ""
  {
    if parts != [] {
      UnnamedKeysKeepDefaults(parts[..|parts| - 1]);
      assert parts[|parts| - 1] in parts;
    }
  }

  /** White space around a piece of the text does not matter. */
  lemma PaddingIsIgnored(parts: seq<string>, i: nat, a: string, b: string)
    requires i < |parts| && AllSpace(a) && AllSpace(b) && forall p | p in parts :: ',' !in p
    ensures ParseMatch(Join(parts[i := a + parts[i] + b])) == ParseMatch(Join(parts))
  {
    var padded := parts[i := a + parts[i] + b];
    forall p | p in padded
      ensures ',' !in p
    {
      assert p in parts || p == a + parts[i] + b;
    }
    SplitUndoesJoin(parts);
    SplitUndoesJoin(padded);
    TrimOfPadded(a, parts[i], b);
    SamePartsParseAlike(parts, padded);
  }

  lemma {:induction false} SamePartsParseAlike(p: seq<string>, q: seq<string>)
    requires |p| == |q| && forall i :: 0 <= i < |p| ==> TrimSpace(p[i]) == TrimSpace(q[i])
    ensures ParseParts(p) == ParseParts(q)
  {
    if p != [] {
      SamePartsParseAlike(p[..|p| - 1], q[..|q| - 1]);
    }
  }

  /** A piece that names a key, with or without white space around it, sets that key and no other. The
      value is taken as it stands; a value for `gpu` is true only if it is "true". */
  lemma PieceSetsItsKey(parts: seq<string>, a: string, value: string, b: string)
    requires AllSpace(a) && AllSpace(b) && NoTrailingSpace(value)
    ensures ParseParts(parts + [a + "gpu:" + value + b]) == ParseParts(parts).(gpu := Some(value == "true"))
    ensures ParseParts(parts + [a + "os:" + value + b]) == ParseParts(parts).(os := value)
    ensures ParseParts(parts + [a + "skill:" + value + b]) == ParseParts(parts).(skill := value)
  {
    LastPieceParses(parts, a, "gpu", value, b);
    LastPieceParses(parts, a, "os", value, b);
    LastPieceParses(parts, a, "skill", value, b);
    assert "gpu" + ":" == "gpu:" && "os" + ":" == "os:" && "skill" + ":" == "skill:";
  }

  lemma LastPieceParses(parts: seq<string>, a: string, key: string, value: string, b: string)
    requires AllSpace(a) && AllSpace(b) && NoTrailingSpace(value)
    requires key != "" && NoLeadingSpace(key) && ':' !in key
    ensures CutColon(TrimSpace(a + (key + ":") + value + b)) == Some((key, value))
    ensures var piece := a + (key + ":") + value + b; ParseParts(parts + [piece]) == ParsePart(ParseParts(parts), piece)
  {
    var t := key + ":" + value;
    var piece := a + (key + ":") + value + b;
    assert piece == a + t + b;
    assert NoLeadingSpace(t) by {
      assert t[0] == key[0];
    }
    assert NoTrailingSpace(t) by {
      assert t[|t| - 1] == if value == "" then ':' else value[|value| - 1];
    }
    var c, d := TrimSpaceCuts(piece);
    TrimIsUnique(a, t, b, c, TrimSpace(piece), d);
    CutColonOfPair(key, value);
    assert (parts + [piece])[..|parts|] == parts;
  }

  // ---------- round trips ----------

  /** Criteria with `gpu` required to be false read as not mentioned: both accept every node. */
  function Normal(mc: MatchCriteria): MatchCriteria {
    mc.(gpu := if mc.gpu == Some(false) then None else mc.gpu,
        wildcard := if mc.wildcard == Some(false) then None else mc.wildcard)
  }

  function SetKey(mc: MatchCriteria, key: string, value: string): MatchCriteria {
    if value == "" then mc
    else if key == "gpu" then mc.(gpu := Some(value == "true"))
    else if key == "os" then mc.(os := value)
    else mc.(skill := value)
  }

  /** A printed piece, added to others, sets its key to its value. */
  lemma PrintedPieceParses(parts: seq<string>, key: string, value: string)
    requires key in {"gpu", "os", "skill"} && CleanValue(value)
    ensures ParseParts(parts + Piece(key, value)) == SetKey(ParseParts(parts), key, value)
    ensures forall p | p in Piece(key, value) :: ',' !in p
  {
    if value == "" {
      assert parts + [] == parts;
    } else {
      var s := key + ":" + value;
      assert s[0] == key[0] && s[|s| - 1] == value[|value| - 1];
      assert TrimSpace(s) == s;
      CutColonOfPair(key, value);
      assert (parts + [s])[..|parts + [s]| - 1] == parts;
    }
  }

  lemma DescribedPartsParse(mc: MatchCriteria)
    requires Clean(mc) && !IsWildcard(mc)
    ensures ParseParts(DescribedParts(mc)) == Normal(mc)
    ensures forall p | p in DescribedParts(mc) :: ',' !in p
  {
    var gpu := if mc.gpu == Some(true) then "true" else "";
    PrintedPieceParses([], "gpu", gpu);
    assert [] + Piece("gpu", gpu) == Piece("gpu", gpu);
    PrintedPieceParses(Piece("gpu", gpu), "os", mc.os);
    PrintedPieceParses(Piece("gpu", gpu) + Piece("os", mc.os), "skill", mc.skill);
    assert ParseParts([]) == ANY_NODE;
    assert ParseParts(Piece("gpu", gpu)) == ANY_NODE.(gpu := Normal(mc).gpu) by {
      match mc.gpu {
        case None =>
        case Some(b) => assert b == (gpu == "true");
      }
    }
    assert ParseParts(Piece("gpu", gpu) + Piece("os", mc.os)) == ANY_NODE.(gpu := Normal(mc).gpu, os := mc.os);
    assert Normal(mc).wildcard == None by {
      match mc.wildcard {
        case None =>
        case Some(b) => assert !b;
      }
    }
  }

  /** Printing and parsing gives non-wildcard criteria back exactly when no value holds a comma or
      ends in white space. */
  lemma PrintThenParse(mc: MatchCriteria)
    ensures ParseMatch(Describe(mc)) == Normal(mc) <==> !IsWildcard(mc) && Clean(mc)
  {
    ParseIsClean(Describe(mc));
    if !IsWildcard(mc) && Clean(mc) {
      DescribedPartsParse(mc);
      if DescribedParts(mc) == [] {
        SplitOfPiece("-");
        assert TrimSpace("-") == "-";
        assert CutColon("-") == None by {
          assert "-"[1..] == "";
        }
        assert ["-"][..0] == [];
      } else {
        SplitUndoesJoin(DescribedParts(mc));
      }
    }
  }

  /** Parse, print, parse: for every text, the second parse has the criteria of the first, and the
      two accept the same nodes. */
  lemma ParsePrintParse(s: string, n: NodeInfo)
    ensures ParseMatch(Describe(ParseMatch(s))) == Normal(ParseMatch(s))
    ensures MatchesCriteria(ParseMatch(Describe(ParseMatch(s))), n) <==> MatchesCriteria(ParseMatch(s), n)
  {
    ParseIsClean(s);
    PrintThenParse(ParseMatch(s));
  }

  /** Printing is stable from the first print on. */
  lemma PrintIsStable(s: string)
    ensures Describe(ParseMatch(Describe(ParseMatch(s)))) == Describe(ParseMatch(s))
  {
    ParsePrintParse(s, NodeInfo(Profile("", "", "", "", "", false, 0), [], [], Online, 0));
  }

  /** A value with a comma is cut short by the round trip. */
  lemma CommaDoesNotSurvive()
    ensures ParseMatch(Describe(MatchCriteria(None, "a,b", "", None))) != MatchCriteria(None, "a,b", "", None)
  {
    var mc := MatchCriteria(None, "a,b", "", None);
    assert "a,b"[1] == ',';
    PrintThenParse(mc);
  }
}
