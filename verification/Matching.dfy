/** Splitting by a separator, and matching a name against rules with asterisks. */
module Matching {
  import opened Text

  // ---------- SplitToCmd ----------

  function Split(s: string, sep: string): (fields: seq<string>)
    requires sep != []
    ensures fields != []
    decreases |s|
  {
    var p := Find(s, sep, 0);
    if p == -1 then [s] else [s[..p]] + Split(s[p + |sep|..], sep)
  }

  function Join(fields: seq<string>, sep: string): string
    requires fields != []
  {
    if |fields| == 1 then fields[0] else fields[0] + (sep + Join(fields[1..], sep))
  }

  /** Nothing is lost in splitting. */
  lemma {:induction false} JoinSplit(s: string, sep: string)
    requires sep != []
    ensures Join(Split(s, sep), sep) == s
    decreases |s|
  {
    var p := Find(s, sep, 0);
    if p != -1 {
      var rest := s[p + |sep|..];
      JoinSplit(rest, sep);
      assert ([s[..p]] + Split(rest, sep))[1..] == Split(rest, sep);
      assert s == s[..p] + (s[p..p + |sep|] + rest);
    }
  }

  /** The separator is first seen at the end of each field, and not at all in the last one. */
  predicate Separable(fields: seq<string>, sep: string)
    requires fields != []
  {
    if |fields| == 1 then Find(fields[0], sep, 0) == -1
    else Find(fields[0] + sep, sep, 0) == |fields[0]| && Separable(fields[1..], sep)
  }

  lemma FindInFirst(f: string, sep: string, rest: string)
    requires sep != []
    ensures Find(f + (sep + rest), sep, 0) == Find(f + sep, sep, 0) != -1
    ensures Find(f + sep, sep, 0) <= |f|
  {
    var s, t := f + (sep + rest), f + sep;
    forall i | 0 <= i <= |f|
      ensures OccursAt(s, sep, i) == OccursAt(t, sep, i)
    {
      assert s[..|t|] == t;
      assert s[i..i + |sep|] == s[..|t|][i..i + |sep|];
    }
    assert t[|f|..|f| + |sep|] == sep;
    assert OccursAt(t, sep, |f|);
    var r := Find(t, sep, 0);
    FindIs(s, sep, 0, r);
  }

  lemma ConsSame(first: string, rest: seq<string>, first2: string, rest2: seq<string>)
    ensures [first] + rest == [first2] + rest2 <==> first == first2 && rest == rest2
  {
    assert ([first] + rest)[0] == first && ([first] + rest)[1..] == rest;
    assert ([first2] + rest2)[0] == first2 && ([first2] + rest2)[1..] == rest2;
  }

  lemma SplitAhead(s: string, sep: string, p: nat, first: string, rest: string, tail: seq<string>)
    requires sep != [] && s == first + (sep + rest) && p == Find(s, sep, 0) <= |first|
    ensures Split(s, sep) == [first] + tail <==> p == |first| && Split(rest, sep) == tail
  {
    ConsSame(s[..p], Split(s[p + |sep|..], sep), first, tail);
    if p == |first| {
      assert s[..p] == first && s[p + |sep|..] == rest;
    } else {
      assert |s[..p]| == p;
    }
  }

  /** Splitting what was joined gives the fields back exactly when the fields are separable. */
  lemma {:induction false} SplitJoin(fields: seq<string>, sep: string)
    requires fields != [] && sep != []
    ensures Split(Join(fields, sep), sep) == fields <==> Separable(fields, sep)
  {
    if |fields| > 1 {
      var s, rest := Join(fields, sep), Join(fields[1..], sep);
      FindInFirst(fields[0], sep, rest);
      SplitJoin(fields[1..], sep);
      SplitAhead(s, sep, Find(s, sep, 0), fields[0], rest, fields[1..]);
      assert fields == [fields[0]] + fields[1..];
    }
  }

  /** Replacing in one pass is splitting at the old text and joining with the new. */
  function Swapped(s: string, a: string, b: string): string
    requires a != []
  {
    Join(Split(s, a), b)
  }

  lemma JoinCons(first: string, rest: seq<string>, sep: string)
    requires rest != []
    ensures Join([first] + rest, sep) == first + (sep + Join(rest, sep))
  {
    assert ([first] + rest)[1..] == rest;
  }

  lemma Associates(s: string, t: string, u: string)
    ensures s + t + u == s + (t + u)
  {
  }

  lemma SplitCons(s: string, sep: string, p: nat)
    requires sep != [] && p == Find(s, sep, 0)
    ensures Split(s, sep) == [s[..p]] + Split(s[p + |sep|..], sep)
  {
  }

  lemma SwapsAhead(s: string, a: string, b: string, first: string, rest: seq<string>)
    requires a != [] && rest != [] && Split(s, a) == [first] + rest
    ensures Swapped(s, a, b) == first + (b + Join(rest, b))
  {
    JoinCons(first, rest, b);
  }

  lemma {:induction false} ReplacedIsSwapped(s: string, a: string, b: string)
    requires a != []
    ensures ReplaceAll(s, a, b) == Swapped(s, a, b)
    decreases |s|
  {
    var p := Find(s, a, 0);
    ReplaceBySearch(s, a, b, p);
    if p == -1 {
      NothingSwapped(s, a, b);
    } else {
      SplitCons(s, a, p);
      SwapsAhead(s, a, b, s[..p], Split(s[p + |a|..], a));
      ReplacedIsSwapped(s[p + |a|..], a, b);
      Associates(s[..p], b, ReplaceAll(s[p + |a|..], a, b));
    }
  }

  lemma NothingSwapped(s: string, a: string, b: string)
    requires a != [] && !Contains(s, a)
    ensures Swapped(s, a, b) == s
  {
  }

  /** Between texts that the old one separates cleanly, each copy of the old gives way to the new. */
  lemma TextsKept(texts: seq<string>, a: string, b: string)
    requires texts != [] && a != [] && Separable(texts, a)
    ensures Swapped(Join(texts, a), a, b) == Join(texts, b)
  {
    SplitJoin(texts, a);
  }

  function TrimAll(fields: seq<string>): seq<string> {
    if fields == [] then [] else [Trim(CStr(fields[0]), ' ')] + TrimAll(fields[1..])
  }

  /** Trimming keeps the fields apart: there are as many, each cut at its first NUL and then freed of the spaces
      at its two ends and of nothing else. */
  lemma {:induction false} TrimmedFields(fields: seq<string>)
    ensures |TrimAll(fields)| == |fields|
    ensures forall i :: 0 <= i < |fields| ==> BareOf(TrimAll(fields)[i], CStr(fields[i]), ' ')
  {
    if fields != [] {
      TrimIs(CStr(fields[0]), ' ');
      TrimmedFields(fields[1..]);
      assert forall i :: 1 <= i < |fields| ==> TrimAll(fields)[i] == TrimAll(fields[1..])[i - 1];
    }
  }

  function Fields(s: string, sep: string, bdelspace: bool): seq<string>
    requires sep != []
  {
    Kept(Split(s, sep), bdelspace)
  }

  function Kept(fields: seq<string>, bdelspace: bool): seq<string> {
    if bdelspace then TrimAll(fields) else fields
  }

  class CCmdStr {
    var cmds: seq<string>

    constructor ()
      ensures cmds == []
    {
      cmds := [];
    }

    method SplitToCmd(buffer: string, sepstr: string, bdelspace: bool)
      requires sepstr != []
      modifies this
      ensures cmds == Fields(buffer, sepstr, bdelspace)
    {
      cmds := [];
      var srcstr, iPos := buffer, Find(buffer, sepstr, 0);
      ghost var done: seq<string>, all := [], Split(buffer, sepstr);
      assert SplitSoFar(all, done, srcstr, sepstr) by {
        assert done + all == all;
      }
      while iPos >= 0
        invariant iPos == Find(srcstr, sepstr, 0)
        invariant SplitSoFar(all, done, srcstr, sepstr)
        invariant cmds == Kept(done, bdelspace)
        decreases |srcstr|
      {
        SplitRound(all, done, srcstr, sepstr, iPos);
        var substr := srcstr[..iPos];
        KeptAppend(done, substr, bdelspace);
        done := done + [substr];
        if bdelspace {
          substr := Trim(CStr(substr), ' ');
        }
        cmds := cmds + [substr];
        srcstr := srcstr[iPos + |sepstr|..];
        iPos := Find(srcstr, sepstr, 0);
      }
      SplitEnds(all, done, srcstr, sepstr);
      KeptAppend(done, srcstr, bdelspace);
      cmds := cmds + [if bdelspace then Trim(CStr(srcstr), ' ') else srcstr];
    }
  }

  predicate SplitSoFar(all: seq<string>, done: seq<string>, s: string, sep: string)
    requires sep != []
  {
    all == done + Split(s, sep)
  }

  lemma SplitRound(all: seq<string>, done: seq<string>, s: string, sep: string, p: nat)
    requires sep != [] && p == Find(s, sep, 0) && SplitSoFar(all, done, s, sep)
    ensures SplitSoFar(all, done + [s[..p]], s[p + |sep|..], sep)
  {
  }

  lemma SplitEnds(all: seq<string>, done: seq<string>, s: string, sep: string)
    requires sep != [] && Find(s, sep, 0) == -1 && SplitSoFar(all, done, s, sep)
    ensures all == done + [s]
  {
  }

  lemma KeptAppend(fields: seq<string>, last: string, bdelspace: bool)
    ensures Kept(fields + [last], bdelspace)
         == Kept(fields, bdelspace) + [if bdelspace then Trim(CStr(last), ' ') else last]
  {
    TrimAllAppend(fields, last);
  }

  lemma {:induction false} TrimAllAppend(fields: seq<string>, last: string)
    ensures TrimAll(fields + [last]) == TrimAll(fields) + [Trim(CStr(last), ' ')]
  {
    if fields != [] {
      TrimAllAppend(fields[1..], last);
      assert (fields + [last])[1..] == fields[1..] + [last];
    }
  }

  // ---------- MatchStr ----------

  function UpperChar(c: char): char {
    if 'a' <= c <= 'z' then (c as int - 32) as char else c
  }

  function Upper(s: string): string {
    seq(|s|, i requires 0 <= i < |s| => UpperChar(s[i]))
  }

  /** Upper case of what is left after passing through a C string. */
  function ToUpper(s: string): string {
    Upper(CStr(s))
  }

  /** pieces[0] gaps[0] pieces[1] gaps[1] ... */
  function Weave(pieces: seq<string>, gaps: seq<string>): string
    requires |pieces| == |gaps| + 1
  {
    if gaps == [] then pieces[0] else pieces[0] + (gaps[0] + Weave(pieces[1..], gaps[1..]))
  }

  /** The meaning of a rule: the asterisks between the pieces stand for some texts. */
  ghost predicate Fits(name: string, pieces: seq<string>) {
    exists gaps: seq<string> :: |pieces| == |gaps| + 1 && Weave(pieces, gaps) == name
  }

  predicate EndsWith(name: string, p: string) {
    |p| <= |name| && name[|name| - |p|..] == p
  }

  /** Each piece found leftmost, one behind the other, starting at `pos`. */
  predicate Walk(name: string, pieces: seq<string>, pos: nat)
    requires pos <= |name|
    decreases |pieces|
  {
    pieces == [] ||
    var p := Find(name, pieces[0], pos);
    p != -1 && Walk(name, pieces[1..], p + |pieces[0]|)
  }

  /** The test the code makes for one alternative. */
  predicate Accepts(name: string, pieces: seq<string>)
    requires pieces != []
  {
    pieces[0] <= name && EndsWith(name, pieces[|pieces| - 1]) && Walk(name, pieces, 0)
  }

  /** From a successful walk to the texts the asterisks stand for. */
  lemma {:induction false} WalkGivesGaps(name: string, pieces: seq<string>, pos: nat)
    returns (lead: string, gaps: seq<string>)
    requires pieces != [] && pos <= |name| && Walk(name, pieces, pos) && EndsWith(name, pieces[|pieces| - 1])
    ensures |pieces| == |gaps| + 1 && name[pos..] == lead + Weave(pieces, gaps)
    decreases |pieces|
  {
    var p, first := Find(name, pieces[0], pos), pieces[0];
    if |pieces| == 1 {
      lead, gaps := name[pos..|name| - |first|], [];
    } else {
      var g, more := WalkGivesGaps(name, pieces[1..], p + |first|);
      lead, gaps := name[pos..p], [g] + more;
      assert gaps[1..] == more;
      CutTwice(name, first, pos, p);
    }
  }

  lemma CutTwice(name: string, first: string, pos: nat, p: nat)
    requires pos <= p && OccursAt(name, first, p)
    ensures name[pos..] == name[pos..p] + (first + name[p + |first|..])
  {
    assert first == name[p..p + |first|];
  }

  /** The exchange: if the pieces can be laid out from `at` on, taking each one leftmost from an earlier
      point on succeeds as well. */
  lemma {:induction false} LayoutGivesWalk(name: string, pieces: seq<string>, gaps: seq<string>, lead: string,
                                           at: nat, pos: nat)
    requires |pieces| == |gaps| + 1 && pos <= at <= |name|
    requires name[at..] == lead + Weave(pieces, gaps)
    ensures Walk(name, pieces, pos)
    decreases |pieces|
  {
    var first, here := pieces[0], at + |lead|;
    var w := Weave(pieces, gaps);
    assert name[here..] == w && w[..|first|] == first;
    assert name[here..here + |first|] == name[here..][..|first|];
    assert OccursAt(name, first, here);
    var p := Find(name, first, pos);
    if gaps != [] {
      assert name[here + |first|..] == w[|first|..] == gaps[0] + Weave(pieces[1..], gaps[1..]);
      LayoutGivesWalk(name, pieces[1..], gaps[1..], gaps[0], here + |first|, p + |first|);
    }
  }

  lemma EndsBehind(front: string, s: string, p: string)
    requires EndsWith(s, p)
    ensures EndsWith(front + s, p)
  {
    assert (front + s)[|front| + |s| - |p|..] == s[|s| - |p|..];
  }

  lemma {:induction false} WeaveEnds(pieces: seq<string>, gaps: seq<string>)
    requires |pieces| == |gaps| + 1
    ensures EndsWith(Weave(pieces, gaps), pieces[|pieces| - 1])
  {
    if gaps != [] {
      WeaveEnds(pieces[1..], gaps[1..]);
      var w := Weave(pieces[1..], gaps[1..]);
      EndsBehind(gaps[0], w, pieces[|pieces| - 1]);
      EndsBehind(pieces[0], gaps[0] + w, pieces[|pieces| - 1]);
    }
  }

  /** With at least one asterisk the leftmost search is neither too strict nor too lax. */
  lemma AcceptsIffFits(name: string, pieces: seq<string>)
    requires |pieces| >= 2
    ensures Accepts(name, pieces) <==> Fits(name, pieces)
  {
    if Accepts(name, pieces) {
      var first := pieces[0];
      assert name[0..|first|] == first;
      FindIs(name, first, 0, 0);
      var lead, gaps := WalkGivesGaps(name, pieces[1..], |first|);
      var all := [lead] + gaps;
      assert all[1..] == gaps && name == first + name[|first|..];
      assert Weave(pieces, all) == name;
    }
    if Fits(name, pieces) {
      var gaps :| |pieces| == |gaps| + 1 && Weave(pieces, gaps) == name;
      WeaveEnds(pieces, gaps);
      assert name[0..] == [] + Weave(pieces, gaps);
      LayoutGivesWalk(name, pieces, gaps, [], 0, 0);
    }
  }

  /** Without one the code asks for less than equality: the piece may be a proper border of the name. */
  predicate Border(name: string, p: string) {
    p != name && p <= name && EndsWith(name, p)
  }

  lemma AcceptsWithoutAsterisk(name: string, p: string)
    ensures Accepts(name, [p]) <==> Fits(name, [p]) || Border(name, p)
  {
    var none: seq<string> := [];
    if p <= name {
      assert name[0..|p|] == p;
      FindIs(name, p, 0, 0);
      assert [p][1..] == none && Walk(name, none, |p|);
    }
    FitsAlone(name, p);
  }

  /** The rule "a" accepts the name "aa", of which it is not the whole. */
  lemma BorderIsAccepted(name: string, p: string)
    requires name == "aa" && p == "a"
    ensures Accepts(name, [p]) && !Fits(name, [p])
  {
    assert name[..1] == p && name[1..] == p;
    AcceptsWithoutAsterisk(name, p);
    FitsAlone(name, p);
  }

  lemma FitsAlone(name: string, p: string)
    ensures Fits(name, [p]) <==> name == p
  {
    var none: seq<string> := [];
    assert |[p]| == |none| + 1 && Weave([p], none) == p;
    if Fits(name, [p]) {
      var gaps :| |[p]| == |gaps| + 1 && Weave([p], gaps) == name;
      assert gaps == none;
    }
  }

  /** What MatchStr decides. */
  ghost predicate Matches(str: string, rules: string) {
    var alts := Split(ToUpper(rules), ",");
    exists i :: 0 <= i < |alts| && AlternativeFits(ToUpper(str), alts[i])
  }

  ghost predicate AlternativeFits(name: string, alt: string) {
    alt != [] && (Fits(name, Split(alt, "*")) || (!Contains(alt, "*") && Border(name, alt)))
  }

  lemma AcceptsAlternative(name: string, alt: string)
    requires alt != []
    ensures Accepts(name, Split(alt, "*")) <==> AlternativeFits(name, alt)
  {
    if Contains(alt, "*") {
      AcceptsIffFits(name, Split(alt, "*"));
    } else {
      AcceptsWithoutAsterisk(name, alt);
    }
  }

  lemma SingleAsterisk(str: string, rules: string)
    requires rules == "*"
    ensures Matches(str, rules)
  {
    var name := ToUpper(str);
    assert CStr(rules[1..]) == [] && CStr(rules) == rules && ToUpper(rules) == rules;
    FindIs(rules, ",", 0, -1);
    assert rules[0..1] == rules;
    FindIs(rules, "*", 0, 0);
    assert rules[1..] == [];
    FindIs([], "*", 0, -1);
    var pieces := Split(rules, "*");
    assert pieces == [[], []];
    assert Weave(pieces, [name]) == name by { assert [name][1..] == [] && pieces[1..] == [[]]; }
    var alts := Split(rules, ",");
    assert alts[0] == rules && AlternativeFits(name, alts[0]);
  }

  method MatchAlternative(name: string, pieces: seq<string>) returns (ok: bool)
    requires pieces != []
    ensures ok <==> Accepts(name, pieces)
  {
    var iPos1 := 0;
    var jj := 0;
    ok := true;
    while jj < |pieces|
      invariant 0 <= jj <= |pieces| && 0 <= iPos1 <= |name|
      invariant ok && Walk(name, pieces, 0) == Walk(name, pieces[jj..], iPos1)
      invariant jj > 0 ==> pieces[0] <= name
      invariant jj == |pieces| ==> EndsWith(name, pieces[|pieces| - 1])
    {
      if jj == 0 && !(pieces[jj] <= name) {
        return false;
      }
      if jj == |pieces| - 1 && !EndsWith(name, pieces[jj]) {
        return false;
      }
      var iPos2 := Find(name, pieces[jj], iPos1);
      assert pieces[jj..][0] == pieces[jj] && pieces[jj..][1..] == pieces[jj + 1..];
      if iPos2 < 0 {
        return false;
      }
      iPos1 := iPos2 + |pieces[jj]|;
      jj := jj + 1;
    }
  }

  method MatchAlternatives(name: string, alts: seq<string>) returns (r: bool)
    ensures r <==> exists i :: 0 <= i < |alts| && AlternativeFits(name, alts[i])
  {
    var cmdSubStr := new CCmdStr();
    for ii := 0 to |alts|
      invariant forall i :: 0 <= i < ii ==> !AlternativeFits(name, alts[i])
    {
      if alts[ii] == [] {
        continue;
      }
      cmdSubStr.SplitToCmd(alts[ii], "*", false);
      var ok := MatchAlternative(name, cmdSubStr.cmds);
      AcceptsAlternative(name, alts[ii]);
      if ok {
        return true;
      }
    }
    return false;
  }

  /** True exactly when some non-empty alternative of the rules fits the name, letter case apart; a rule
      without an asterisk also accepts the names it both begins and ends. */
  method MatchStr(str: string, rules: string) returns (r: bool)
    ensures r <==> Matches(str, rules)
  {
    if |rules| == 0 {
      NoRules(str, rules);
      return false;
    }
    if rules == "*" {
      SingleAsterisk(str, rules);
      return true;
    }
    var strFileName, strMatchStr := ToUpper(str), ToUpper(rules);
    var cmdStr := new CCmdStr();
    cmdStr.SplitToCmd(strMatchStr, ",", false);
    r := MatchAlternatives(strFileName, cmdStr.cmds);
  }

  lemma NoRules(str: string, rules: string)
    requires rules == []
    ensures !Matches(str, rules)
  {
    assert ToUpper(rules) == [];
    FindIs([], ",", 0, -1);
    assert Split([], ",") == [[]];
  }

  // ---------- letter case ----------

  /** Equal, or the small and the capital form of one of the letters of the alphabet. */
  predicate SameLetter(c: char, d: char) {
    || c == d
    || ('a' <= c <= 'z' && 'A' <= d <= 'Z' && c as int - 'a' as int == d as int - 'A' as int)
    || ('A' <= c <= 'Z' && 'a' <= d <= 'z' && c as int - 'A' as int == d as int - 'a' as int)
  }

  predicate SameButCase(s: string, t: string) {
    |s| == |t| && forall i :: 0 <= i < |s| ==> SameLetter(s[i], t[i])
  }

  lemma UpperExactly(c: char, d: char)
    ensures UpperChar(c) == UpperChar(d) <==> SameLetter(c, d)
    ensures (UpperChar(c) == NUL <==> c == NUL) && (c !in "*," ==> UpperChar(c) !in "*,")
  {
  }

  lemma UpperWhole(s: string)
    requires NUL !in s
    ensures ToUpper(s) == Upper(s)
  {
    assert CStr(s) == s;
  }

  lemma UpperEqual(s: string, t: string)
    ensures Upper(s) == Upper(t) <==> SameButCase(s, t)
  {
    assert |s| == |Upper(s)| && |t| == |Upper(t)|;
    forall i | 0 <= i < |s| && i < |t|
      ensures Upper(s)[i] == Upper(t)[i] <==> SameLetter(s[i], t[i])
    {
      UpperExactly(s[i], t[i]);
    }
  }

  lemma UpperSame(s: string, t: string)
    requires SameButCase(s, t)
    ensures ToUpper(s) == ToUpper(t)
  {
    var n, m := |CStr(s)|, |CStr(t)|;
    assert n < |s| ==> SameLetter(s[n], t[n]);
    assert m < |s| ==> SameLetter(s[m], t[m]);
    assert n == m;
    UpperEqual(CStr(s), CStr(t));
  }

  /** The answer depends on no letter's case, neither in the name nor in the rules. */
  lemma CaseIsIgnored(name: string, rules: string, name2: string, rules2: string)
    requires SameButCase(name, name2) && SameButCase(rules, rules2)
    ensures Matches(name, rules) <==> Matches(name2, rules2)
  {
    UpperSame(name, name2);
    UpperSame(rules, rules2);
  }

  lemma {:induction false} CommasSplit(s: string)
    requires forall i :: 0 <= i < |s| ==> s[i] == ','
    ensures forall i :: 0 <= i < |Split(s, ",")| ==> Split(s, ",")[i] == []
    decreases |s|
  {
    if s == [] {
      FindIs(s, ",", 0, -1);
    } else {
      assert s[0..1] == ",";
      FindIs(s, ",", 0, 0);
      SplitCons(s, ",", 0);
      CommasSplit(s[1..]);
    }
  }

  /** Rules of commas alone have only empty alternatives, and no name matches an empty alternative. */
  lemma OnlyCommas(str: string, rules: string)
    requires forall i :: 0 <= i < |rules| ==> rules[i] == ','
    ensures !Matches(str, rules)
  {
    UpperWhole(rules);
    assert ToUpper(rules) == rules;
    CommasSplit(rules);
  }

  lemma NotContained(s: string, c: char)
    requires c !in s
    ensures Find(s, [c], 0) == -1
  {
    forall i | 0 <= i < |s|
      ensures !OccursAt(s, [c], i)
    {
      assert s[i..i + 1][0] != c;
    }
    FindIs(s, [c], 0, -1);
  }

  // ---------- what rules mean ----------

  predicate Without(s: string, c: char) {
    NUL !in s && c !in s
  }

  lemma UpperWithout(s: string, c: char)
    requires Without(s, c) && c in "*,"
    ensures Without(Upper(s), c)
  {
    forall i | 0 <= i < |s|
      ensures Upper(s)[i] != NUL && Upper(s)[i] != c
    {
      UpperExactly(s[i], c);
      UpperExactly(s[i], NUL);
    }
  }

  lemma UpperAppend(s: string, t: string)
    ensures Upper(s + t) == Upper(s) + Upper(t)
  {
  }

  function UpperAll(fields: seq<string>): (r: seq<string>)
    ensures |r| == |fields| && forall i :: 0 <= i < |r| ==> r[i] == Upper(fields[i])
  {
    if fields == [] then [] else [Upper(fields[0])] + UpperAll(fields[1..])
  }

  lemma {:induction false} JoinUpper(fields: seq<string>, sep: string)
    requires fields != [] && Upper(sep) == sep
    ensures Upper(Join(fields, sep)) == Join(UpperAll(fields), sep)
  {
    if |fields| > 1 {
      var rest := Join(fields[1..], sep);
      JoinUpper(fields[1..], sep);
      UpperAppend(fields[0], sep + rest);
      UpperAppend(sep, rest);
      assert UpperAll(fields)[1..] == UpperAll(fields[1..]);
    }
  }

  lemma FindFirst(f: string, c: char)
    requires c !in f
    ensures Find(f + [c], [c], 0) == |f|
  {
    var s := f + [c];
    forall i | 0 <= i < |f|
      ensures !OccursAt(s, [c], i)
    {
      assert s[i..i + 1][0] == f[i];
    }
    assert s[|f|..|f| + 1] == [c];
    FindIs(s, [c], 0, |f|);
  }

  lemma {:induction false} PlainSeparable(fields: seq<string>, c: char)
    requires fields != [] && forall i :: 0 <= i < |fields| ==> c !in fields[i]
    ensures Separable(fields, [c])
  {
    if |fields| == 1 {
      NotContained(fields[0], c);
    } else {
      FindFirst(fields[0], c);
      PlainSeparable(fields[1..], c);
    }
  }

  lemma {:induction false} JoinClean(fields: seq<string>, sep: string)
    requires fields != [] && NUL !in sep && forall i :: 0 <= i < |fields| ==> NUL !in fields[i]
    ensures NUL !in Join(fields, sep)
  {
    if |fields| > 1 {
      JoinClean(fields[1..], sep);
    }
  }

  lemma ToUpperOfJoin(fields: seq<string>, sep: string, joined: string)
    requires fields != [] && joined == Join(fields, sep) && Upper(sep) == sep && NUL !in sep
    requires forall i :: 0 <= i < |fields| ==> NUL !in fields[i]
    ensures ToUpper(joined) == Join(UpperAll(fields), sep)
  {
    JoinClean(fields, sep);
    UpperWhole(joined);
    JoinUpper(fields, sep);
  }

  lemma SeparatorKept(c: char)
    requires c in "*,"
    ensures Upper([c]) == [c] && NUL !in [c]
  {
  }

  lemma SplitPlain(fields: seq<string>, c: char)
    requires fields != [] && forall i :: 0 <= i < |fields| ==> c !in fields[i]
    ensures Split(Join(fields, [c]), [c]) == fields
  {
    PlainSeparable(fields, c);
    SplitJoin(fields, [c]);
  }

  lemma UpperAllWithout(fields: seq<string>, c: char)
    requires c in "*," && forall i :: 0 <= i < |fields| ==> Without(fields[i], c)
    ensures forall i :: 0 <= i < |fields| ==> c !in UpperAll(fields)[i]
  {
    forall i | 0 <= i < |fields|
      ensures c !in UpperAll(fields)[i]
    {
      UpperWithout(fields[i], c);
    }
  }

  /** Splitting the upper case of joined fields gives their upper cases. */
  lemma SplitUpper(fields: seq<string>, c: char)
    requires fields != [] && c in "*," && forall i :: 0 <= i < |fields| ==> Without(fields[i], c)
    ensures Split(ToUpper(Join(fields, [c])), [c]) == UpperAll(fields)
  {
    SeparatorKept(c);
    ToUpperOfJoin(fields, [c], Join(fields, [c]));
    UpperAllWithout(fields, c);
    SplitPlain(UpperAll(fields), c);
  }

  lemma OneAlternative(name: string, alt: string)
    requires Without(alt, ',')
    ensures Matches(name, alt) <==> AlternativeFits(ToUpper(name), Upper(alt))
  {
    SplitUpper([alt], ',');
    UpperWhole(alt);
    assert Split(ToUpper(alt), ",") == [Upper(alt)];
    assert [Upper(alt)][0] == Upper(alt);
  }

  /** A name matches a list of rules exactly if it matches one of them on its own. */
  lemma MatchesOneOf(name: string, alts: seq<string>)
    requires alts != [] && forall i :: 0 <= i < |alts| ==> Without(alts[i], ',')
    ensures Matches(name, Join(alts, ",")) <==> exists i :: 0 <= i < |alts| && Matches(name, alts[i])
  {
    SplitUpper(alts, ',');
    forall i | 0 <= i < |alts|
      ensures Matches(name, alts[i]) <==> AlternativeFits(ToUpper(name), UpperAll(alts)[i])
    {
      OneAlternative(name, alts[i]);
    }
  }

  lemma {:induction false} WeaveUpper(pieces: seq<string>, gaps: seq<string>)
    requires |pieces| == |gaps| + 1
    ensures Upper(Weave(pieces, gaps)) == Weave(UpperAll(pieces), UpperAll(gaps))
  {
    if gaps != [] {
      var rest := Weave(pieces[1..], gaps[1..]);
      WeaveUpper(pieces[1..], gaps[1..]);
      UpperAppend(pieces[0], gaps[0] + rest);
      UpperAppend(gaps[0], rest);
      assert UpperAll(pieces)[1..] == UpperAll(pieces[1..]) && UpperAll(gaps)[1..] == UpperAll(gaps[1..]);
    }
  }

  /** From the texts the asterisks stand for in upper case to those in the name itself. */
  lemma {:induction false} GapsOfName(name: string, pieces: seq<string>, upper: seq<string>) returns (gaps: seq<string>)
    requires |pieces| == |upper| + 1 && Upper(name) == Weave(UpperAll(pieces), upper)
    ensures |gaps| == |upper| && Upper(Weave(pieces, gaps)) == Upper(name)
    decreases |pieces|
  {
    if upper == [] {
      gaps := [];
    } else {
      var n, m := |pieces[0]|, |upper[0]|;
      var rest := name[n + m..];
      CutUpper(name, Upper(pieces[0]), upper[0], Weave(UpperAll(pieces)[1..], upper[1..]));
      assert UpperAll(pieces)[1..] == UpperAll(pieces[1..]);
      var more := GapsOfName(rest, pieces[1..], upper[1..]);
      gaps := [name[n..n + m]] + more;
      assert gaps[1..] == more;
      UpperAppend(pieces[0], gaps[0] + Weave(pieces[1..], more));
      UpperAppend(gaps[0], Weave(pieces[1..], more));
    }
  }

  lemma CutUpper(name: string, a: string, b: string, c: string)
    requires Upper(name) == a + (b + c)
    ensures |name| == |a| + |b| + |c|
    ensures Upper(name[|a|..|a| + |b|]) == b && Upper(name[|a| + |b|..]) == c
  {
    assert |Upper(name)| == |name|;
    assert Upper(name[|a|..|a| + |b|]) == Upper(name)[|a|..|a| + |b|];
    assert Upper(name[|a| + |b|..]) == Upper(name)[|a| + |b|..];
    assert (a + (b + c))[|a|..|a| + |b|] == b && (a + (b + c))[|a| + |b|..] == c;
  }

  /** The asterisks stand for some texts with which the rule becomes the name, but for letter case. */
  ghost predicate BecomesName(name: string, pieces: seq<string>, gaps: seq<string>) {
    |pieces| == |gaps| + 1 && SameButCase(name, Weave(pieces, gaps))
  }

  /** What a rule with asterisks means. */
  lemma RuleWithAsterisks(name: string, pieces: seq<string>)
    requires |pieces| >= 2 && NUL !in name
    requires forall i :: 0 <= i < |pieces| ==> Without(pieces[i], '*') && ',' !in pieces[i]
    ensures Matches(name, Join(pieces, "*")) <==> exists gaps :: BecomesName(name, pieces, gaps)
  {
    var rule := Join(pieces, "*");
    JoinHasOnly(pieces, "*");
    OneAlternative(name, rule);
    SplitUpper(pieces, '*');
    UpperWhole(name);
    UpperWhole(rule);
    AsteriskKept(pieces);
    if Fits(Upper(name), UpperAll(pieces)) {
      var upper :| |UpperAll(pieces)| == |upper| + 1 && Weave(UpperAll(pieces), upper) == Upper(name);
      var gaps := GapsOfName(name, pieces, upper);
      UpperEqual(name, Weave(pieces, gaps));
      assert BecomesName(name, pieces, gaps);
    }
    if gaps :| BecomesName(name, pieces, gaps) {
      UpperEqual(name, Weave(pieces, gaps));
      WeaveUpper(pieces, gaps);
      assert |UpperAll(pieces)| == |UpperAll(gaps)| + 1;
    }
  }

  lemma {:induction false} JoinHasOnly(pieces: seq<string>, sep: string)
    requires pieces != [] && Without(sep, ',') && forall i :: 0 <= i < |pieces| ==> Without(pieces[i], ',')
    ensures Without(Join(pieces, sep), ',')
  {
    if |pieces| > 1 {
      JoinHasOnly(pieces[1..], sep);
    }
  }

  /** A rule of several pieces is not empty and contains an asterisk, in upper case as well. */
  lemma AsteriskKept(pieces: seq<string>)
    requires |pieces| >= 2 && Split(Upper(Join(pieces, "*")), "*") == UpperAll(pieces)
    ensures Upper(Join(pieces, "*")) != [] && Contains(Upper(Join(pieces, "*")), "*")
  {
    assert |UpperAll(pieces)| >= 2;
  }

  lemma PlainFits(name: string, alt: string)
    requires alt != [] && '*' !in alt
    ensures AlternativeFits(name, alt) <==> alt <= name && EndsWith(name, alt)
  {
    NotContained(alt, '*');
    assert Split(alt, "*") == [alt];
    FitsAlone(name, alt);
  }

  lemma UpperEnds(name: string, rule: string)
    requires |rule| <= |name|
    ensures Upper(rule) <= Upper(name) <==> SameButCase(name[..|rule|], rule)
    ensures EndsWith(Upper(name), Upper(rule)) <==> SameButCase(name[|name| - |rule|..], rule)
  {
    UpperEqual(name[..|rule|], rule);
    UpperEqual(name[|name| - |rule|..], rule);
    assert Upper(name[..|rule|]) == Upper(name)[..|rule|];
    assert Upper(name[|name| - |rule|..]) == Upper(name)[|name| - |rule|..];
  }

  /** What a rule without an asterisk means: the name itself, or more than the name should be allowed, a text that
      both begins and ends it. */
  lemma RuleWithoutAsterisk(name: string, rule: string)
    requires rule != [] && NUL !in name && Without(rule, ',') && '*' !in rule
    ensures Matches(name, rule) <==>
              && |rule| <= |name| && SameButCase(name[..|rule|], rule)
              && SameButCase(name[|name| - |rule|..], rule)
  {
    OneAlternative(name, rule);
    UpperWhole(name);
    UpperWithout(rule, '*');
    PlainFits(Upper(name), Upper(rule));
    if |rule| <= |name| {
      UpperEnds(name, rule);
    }
  }

  /** A rule of plain text as long as the name accepts it exactly if the two are the same but for case:
      nothing else is taken for equal. */
  lemma PlainRule(name: string, rule: string)
    requires rule != [] && |rule| == |name| && Without(rule, ',') && '*' !in rule
    ensures Matches(name, rule) <==> SameButCase(name, rule)
  {
    if NUL !in name {
      RuleWithoutAsterisk(name, rule);
      assert name[..|rule|] == name == name[|name| - |rule|..];
    } else {
      NulMatchesNothing(name, rule);
      var i :| 0 <= i < |name| && name[i] == NUL;
      assert rule[i] in rule;
    }
  }

  lemma NulMatchesNothing(name: string, rule: string)
    requires rule != [] && |rule| == |name| && Without(rule, ',') && '*' !in rule && NUL in name
    ensures !Matches(name, rule)
  {
    OneAlternative(name, rule);
    UpperWithout(rule, '*');
    PlainFits(ToUpper(name), Upper(rule));
    assert |CStr(name)| < |name|;
  }
}
