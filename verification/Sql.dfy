/** Rewriting the placeholders :1, :2, ... of a statement to question marks. */
module Sql {
  import opened Text
  import opened Decimals
  import opened CStrings
  import opened Matching

  const MAXPARAMS := 256

  /** The size formatting is given; the statement buffer is one character longer. */
  const SQL_LIMIT := 10240

  function Pattern(n: nat): string {
    ":" + Dec(n)
  }

  /** What the loop computes: replace ":n", then ":n-1", down to ":1". */
  function Descend(s: string, n: nat): string
    decreases n
  {
    if n == 0 then s else Descend(ReplaceAll(s, Pattern(n), "?"), n - 1)
  }

  /** The largest number between `lo` and `hi` whose numeral the text begins with; 0 if there is none. */
  function Best(s: string, lo: nat, hi: nat): (v: nat)
    requires lo > 0
    ensures v == 0 || (lo <= v <= hi && Dec(v) <= s)
    ensures forall w :: lo <= w <= hi && Dec(w) <= s ==> w <= v
  {
    if hi < lo then 0 else if Dec(hi) <= s then hi else Best(s, lo, hi - 1)
  }

  /** One left-to-right pass: a colon and the largest numeral from `lo` on that follows it become a mark. */
  function Greedy(s: string, lo: nat): string
    requires lo > 0
    decreases |s|
  {
    if s == [] then []
    else if s[0] == ':' && Best(s[1..], lo, MAXPARAMS) > 0 then
      "?" + Greedy(s[1..][|Dec(Best(s[1..], lo, MAXPARAMS))|..], lo)
    else [s[0]] + Greedy(s[1..], lo)
  }

  /** Digits pass through unchanged, and no digits appear that were not there. */
  lemma {:induction false} DigitsKept(s: string, lo: nat, d: string)
    requires lo > 0 && AllDigits(d)
    ensures d <= Greedy(s, lo) <==> d <= s
    ensures d <= s ==> Greedy(s, lo)[|d|..] == Greedy(s[|d|..], lo)
    decreases |d|
  {
    if d != [] && s != [] && s[0] == d[0] {
      DigitsKept(s[1..], lo, d[1..]);
      assert Greedy(s, lo) == [s[0]] + Greedy(s[1..], lo);
      assert d == [d[0]] + d[1..] && s == [s[0]] + s[1..];
      assert d <= s <==> d[1..] <= s[1..];
      assert d <= s ==> s[1..][|d| - 1..] == s[|d|..];
    } else if d != [] {
      assert IsDigit(d[0]);
    }
  }

  /** One more round of the loop lowers the bound of the pass by one. */
  lemma {:induction false} Stage(s: string, n: nat)
    requires 1 <= n <= MAXPARAMS
    ensures ReplaceAll(Greedy(s, n + 1), Pattern(n), "?") == Greedy(s, n)
    decreases |s|
  {
    if s != [] {
      var rest := s[1..];
      var t := Greedy(s, n + 1);
      var v := Best(rest, n + 1, MAXPARAMS);
      if s[0] != ':' || v > 0 {
        var k := if s[0] == ':' then |Dec(v)| else 0;
        Stage(rest[k..], n);
        assert rest[0..] == rest;
        assert t[0] != ':' && t[1..] == Greedy(rest[k..], n + 1);
        assert s[0] == ':' ==> Best(rest, n, MAXPARAMS) == v;
      } else {
        var u := Greedy(rest, n + 1);
        assert t == ":" + u;
        DigitsKept(rest, n + 1, Dec(n));
        assert Pattern(n) <= t <==> Dec(n) <= u by {
          assert t[1..] == u && Pattern(n)[1..] == Dec(n);
        }
        if Dec(n) <= rest {
          Stage(rest[|Dec(n)|..], n);
          assert t[|Pattern(n)|..] == u[|Dec(n)|..];
          assert Best(rest, n, MAXPARAMS) == n;
        } else {
          Stage(rest, n);
          assert t[1..] == u;
          assert Best(rest, n, MAXPARAMS) == 0;
        }
      }
    }
  }

  lemma {:induction false} NothingAbove(s: string)
    ensures Greedy(s, MAXPARAMS + 1) == s
  {
    if s != [] {
      NothingAbove(s[1..]);
    }
  }

  lemma {:induction false} DescendStages(s: string, n: nat)
    requires n <= MAXPARAMS
    ensures Descend(Greedy(s, n + 1), n) == Greedy(s, 1)
  {
    if n > 0 {
      Stage(s, n);
      DescendStages(s, n - 1);
    }
  }

  /** For every statement: the 256 replacements are one pass that takes, after each colon, the longest
      numeral up to 256. */
  lemma LoopIsOnePass(s: string)
    ensures Descend(s, MAXPARAMS) == Greedy(s, 1)
  {
    NothingAbove(s);
    DescendStages(s, MAXPARAMS);
  }

  // ---------- whole tokens ----------

  /** A run of digits that names a parameter. */
  predicate IsParam(run: string) {
    Canonical(run) && Value(run) <= MAXPARAMS
  }

  /** A run of digits that begins like a parameter but denotes more than the last one. */
  predicate IsOversize(run: string) {
    Canonical(run) && Value(run) > MAXPARAMS
  }

  /** The intended rewriting: a colon with all the digits after it is one token. */
  function WholeTokens(s: string): string
    decreases |s|
  {
    if s == [] then []
    else if s[0] == ':' && IsParam(Run(s[1..])) then "?" + WholeTokens(s[1..][|Run(s[1..])|..])
    else [s[0]] + WholeTokens(s[1..])
  }

  predicate HasOversize(s: string) {
    s != [] && ((s[0] == ':' && IsOversize(Run(s[1..]))) || HasOversize(s[1..]))
  }

  lemma {:induction false} WholeDigitsKept(d: string, s: string)
    requires AllDigits(d) && d <= s
    ensures WholeTokens(s) == d + WholeTokens(s[|d|..])
    ensures HasOversize(s) == HasOversize(s[|d|..])
    decreases |d|
  {
    if d != [] {
      WholeDigitsKept(d[1..], s[1..]);
      assert s[0] == d[0] && IsDigit(d[0]);
      assert s[1..][|d| - 1..] == s[|d|..];
      HeadBack(d, WholeTokens(s[|d|..]));
    } else {
      assert s[0..] == s && [] + WholeTokens(s) == WholeTokens(s);
    }
  }

  lemma HeadBack(d: string, rest: string)
    requires d != []
    ensures [d[0]] + (d[1..] + rest) == d + rest
  {
  }

  lemma NumeralInRun(s: string, v: nat)
    requires v > 0 && Dec(v) <= s
    ensures Canonical(Run(s)) && Dec(v) <= Run(s) && v <= Value(Run(s))
    ensures v == Value(Run(s)) ==> Dec(v) == Run(s)
  {
    DigitsWithinRun(Dec(v), s);
    ValueOfDec(v);
    assert Run(s)[0] == Dec(v)[0];
    PrefixValue(Dec(v), Run(s));
  }

  /** What the greedy choice picks, by the kind of the run of digits. */
  lemma BestOfRun(s: string)
    ensures var run, v := Run(s), Best(s, 1, MAXPARAMS);
            && (v > 0 <==> IsParam(run) || IsOversize(run))
            && (v > 0 ==> Dec(v) <= run)
            && (IsParam(run) ==> Dec(v) == run)
  {
    var run, v := Run(s), Best(s, 1, MAXPARAMS);
    if v > 0 {
      NumeralInRun(s, v);
    }
    if Canonical(run) {
      DecOfValue(run);
      var first := run[..1];
      assert first == [run[0]] && Canonical(first);
      DecOfValue(first);
      assert Value(first) == run[0] as int - '0' as int by { assert first[..0] == []; }
      assert Dec(Value(first)) <= s;
      assert IsParam(run) ==> Dec(Value(run)) <= s;
    }
  }

  /** Digits of a run that are not taken stay. */
  lemma LeftBehind(s: string, run: string, k: nat)
    requires k <= |run| && run <= s && AllDigits(run)
    ensures |Greedy(s[k..], 1)| == |run| - k + |Greedy(s[|run|..], 1)|
  {
    var left := run[k..];
    assert left <= s[k..] && s[k..][|left|..] == s[|run|..];
    DigitsKept(s[k..], 1, left);
  }

  /** The pass is never longer than the intended result, equal to it when no run of digits is too large,
      and shorter as soon as one is. */
  lemma {:induction false} GreedyAgainstWhole(s: string)
    ensures !HasOversize(s) ==> Greedy(s, 1) == WholeTokens(s)
    ensures HasOversize(s) ==> |Greedy(s, 1)| < |WholeTokens(s)|
    decreases |s|
  {
    if s != [] {
      var rest := s[1..];
      var run, v := Run(rest), Best(rest, 1, MAXPARAMS);
      BestOfRun(rest);
      if s[0] != ':' || v == 0 {
        GreedyAgainstWhole(rest);
      } else {
        var after := rest[|run|..];
        GreedyAgainstWhole(after);
        WholeDigitsKept(run, rest);
        if IsOversize(run) {
          LeftBehind(rest, run, |Dec(v)|);
        } else {
          assert !IsOversize(run);
        }
      }
    }
  }

  /** The loop rewrites whole tokens exactly when no colon is followed by a number above the last parameter. */
  lemma LoopRewritesWholeTokens(s: string)
    ensures Descend(s, MAXPARAMS) == WholeTokens(s) <==> !HasOversize(s)
  {
    LoopIsOnePass(s);
    GreedyAgainstWhole(s);
  }

  lemma ValuesIn257(run: string)
    requires run == "257"
    ensures Value(run[..1]) == 2 && Value(run[..2]) == 25 && Value(run) == 257
  {
    assert run[..1][..0] == [] && run[..2][..1] == run[..1] && run[..|run| - 1] == run[..2];
  }

  lemma BestOf257(run: string)
    requires run == "257"
    ensures IsOversize(Run(run)) && Best(run, 1, MAXPARAMS) == 25 && |Dec(25)| == 2
  {
    assert AllDigits(run);
    DigitsWithinRun(run, run);
    assert Run(run) == run;
    ValuesIn257(run);
    DecOfValue(run[..2]);
    var v := Best(run, 1, MAXPARAMS);
    var k := |Dec(v)|;
    assert Dec(v) == run[..k];
    ValueOfDec(v);
    assert 1 <= k <= 3 && run[..3] == run;
  }

  lemma LoneDigit(s: string)
    requires |s| == 1 && IsDigit(s[0])
    ensures Greedy(s, 1) == s
  {
    assert Greedy(s[1..], 1) == [] && [s[0]] + [] == s;
  }

  lemma CutAfterTwo(s: string, run: string)
    requires s != [] && s[0] == ':' && s[1..] == run && IsOversize(Run(run)) && |run| == 3
    requires Best(run, 1, MAXPARAMS) > 0 && |Dec(Best(run, 1, MAXPARAMS))| == 2
    requires Greedy(run[2..], 1) == run[2..]
    ensures HasOversize(s) && Greedy(s, 1) == "?" + run[2..]
  {
  }

  /** An oversize number is cut: ":257" loses its first two digits and leaves the third behind. */
  lemma OversizeIsCut(run: string)
    requires run == "257"
    ensures HasOversize(":" + run) && Descend(":" + run, MAXPARAMS) == "?" + run[2..]
  {
    var s := ":" + run;
    BestOf257(run);
    LoneDigit(run[2..]);
    CutAfterTwo(s, run);
    LoopIsOnePass(s);
  }

  // ---------- statements with :1 to :n in order ----------

  /** No colon has a digit behind it. */
  predicate Plain(t: string) {
    forall i :: 0 <= i < |t| - 1 && t[i] == ':' ==> !IsDigit(t[i + 1])
  }

  predicate StartsWithDigit(s: string) {
    s != [] && IsDigit(s[0])
  }

  /** The texts between the parameters: none hides a placeholder, none lengthens the numeral before it. */
  predicate Template(texts: seq<string>) {
    && texts != []
    && (forall i :: 0 <= i < |texts| ==> Plain(texts[i]))
    && (forall i :: 1 <= i < |texts| ==> !StartsWithDigit(texts[i]))
  }

  /** texts[0] :i texts[1] :i+1 texts[2] ... */
  function Numbered(texts: seq<string>, i: nat): string
    requires texts != []
  {
    if |texts| == 1 then texts[0] else texts[0] + (Pattern(i) + Numbered(texts[1..], i + 1))
  }

  /** texts[0] ? texts[1] ? texts[2] ... */
  function Marked(texts: seq<string>): string
    requires texts != []
  {
    if |texts| == 1 then texts[0] else texts[0] + ("?" + Marked(texts[1..]))
  }

  lemma {:induction false} PlainKept(t: string, rest: string)
    requires Plain(t) && !StartsWithDigit(rest)
    ensures Greedy(t + rest, 1) == t + Greedy(rest, 1)
  {
    if t == [] {
      assert t + rest == rest && t + Greedy(rest, 1) == Greedy(rest, 1);
    } else {
      var s := t + rest;
      assert s[1..] == t[1..] + rest;
      if s[0] == ':' {
        assert !StartsWithDigit(s[1..]);
        BestOfRun(s[1..]);
      }
      PlainKept(t[1..], rest);
      HeadBack(t, Greedy(rest, 1));
    }
  }

  lemma RunEnds(d: string, rest: string)
    requires AllDigits(d) && !StartsWithDigit(rest)
    ensures Run(d + rest) == d
  {
    var s := d + rest;
    DigitsWithinRun(d, s);
    var r := Run(s);
    assert forall i :: 0 <= i < |r| ==> r[i] == s[i] && IsDigit(s[i]);
    assert rest != [] ==> s[|d|] == rest[0];
  }

  lemma NumeralTaken(i: nat, rest: string)
    requires 1 <= i <= MAXPARAMS && !StartsWithDigit(rest)
    ensures Greedy(Pattern(i) + rest, 1) == "?" + Greedy(rest, 1)
  {
    var s := Pattern(i) + rest;
    assert s[1..] == Dec(i) + rest;
    ValueOfDec(i);
    RunEnds(Dec(i), rest);
    BestOfRun(s[1..]);
    assert s[1..][|Dec(i)|..] == rest;
  }

  lemma NumberedStart(texts: seq<string>, i: nat)
    requires texts != [] && !StartsWithDigit(texts[0])
    ensures !StartsWithDigit(Numbered(texts, i))
  {
    if |texts| > 1 && texts[0] == [] {
      assert Numbered(texts, i)[0] == ':';
    }
  }

  lemma {:induction false} NumberedToMarked(texts: seq<string>, i: nat)
    requires Template(texts) && 1 <= i && i + |texts| - 1 <= MAXPARAMS + 1
    ensures Greedy(Numbered(texts, i), 1) == Marked(texts)
  {
    if |texts| == 1 {
      assert texts[0] + [] == texts[0];
      PlainKept(texts[0], []);
    } else {
      var tail := Numbered(texts[1..], i + 1);
      NumberedToMarked(texts[1..], i + 1);
      NumberedStart(texts[1..], i + 1);
      MarkTaken(texts[0], i, tail);
    }
  }

  lemma MarkTaken(t: string, i: nat, tail: string)
    requires Plain(t) && 1 <= i <= MAXPARAMS && !StartsWithDigit(tail)
    ensures Greedy(t + (Pattern(i) + tail), 1) == t + ("?" + Greedy(tail, 1))
  {
    NumeralTaken(i, tail);
    assert (Pattern(i) + tail)[0] == ':';
    PlainKept(t, Pattern(i) + tail);
  }

  /** A statement with placeholders :1 to :n in order, n at most 256: after the loop the i-th mark stands
      where :i stood, and the text around it is what it was. */
  lemma InOrderPlaceholders(texts: seq<string>)
    requires Template(texts) && |texts| - 1 <= MAXPARAMS
    ensures Descend(Numbered(texts, 1), MAXPARAMS) == Marked(texts)
  {
    LoopIsOnePass(Numbered(texts, 1));
    NumberedToMarked(texts, 1);
  }

  lemma ValueOf256(run: string)
    requires run == "256"
    ensures Value(run) == 256
  {
    assert run[..1][..0] == [] && run[..2][..1] == run[..1] && run[..|run| - 1] == run[..2];
    assert Value(run[..1]) == 2 && Value(run[..2]) == 25;
  }

  /** The last number that is a parameter is 256. */
  lemma LastParameter(run: string)
    requires run == "256"
    ensures Descend(":" + run, MAXPARAMS) == "?"
  {
    ValueOf256(run);
    DecOfValue(run);
    MarkTaken([], 256, []);
    LoopIsOnePass(":" + run);
    assert [] + (Pattern(256) + []) == ":" + run && [] + ("?" + []) == "?";
  }

  // ---------- the rest of prepare ----------

  function Marks(s: string): nat {
    if s == [] then 0 else (if s[0] == '?' then 1 else 0) + Marks(s[1..])
  }

  lemma {:induction false} MarksAppend(s: string, t: string)
    ensures Marks(s + t) == Marks(s) + Marks(t)
  {
    if s == [] {
      assert s + t == t;
    } else {
      MarksAppend(s[1..], t);
      assert (s + t)[1..] == s[1..] + t;
    }
  }

  lemma {:induction false} NoMarks(s: string)
    requires '?' !in s
    ensures Marks(s) == 0
  {
    if s != [] {
      NoMarks(s[1..]);
    }
  }

  lemma {:induction false} ReplaceKeepsMarks(s: string, a: string, b: string)
    requires a != [] && '?' !in a && '?' !in b
    ensures Marks(ReplaceAll(s, a, b)) == Marks(s)
    decreases |s|
  {
    if s == [] {
    } else if a <= s {
      ReplaceKeepsMarks(s[|a|..], a, b);
      NoMarks(a);
      NoMarks(b);
      MarksAppend(a, s[|a|..]);
      MarksAppend(b, ReplaceAll(s[|a|..], a, b));
      assert s == a + s[|a|..];
    } else {
      ReplaceKeepsMarks(s[1..], a, b);
      MarksAppend([s[0]], s[1..]);
      MarksAppend([s[0]], ReplaceAll(s[1..], a, b));
      assert s == [s[0]] + s[1..];
    }
  }

  /** The dialect rewritings after the placeholders: each is the old text, the new text, and the text whose
      presence switches the rewriting off. */
  datatype Rule = Rule(from: string, to: string, unless: string)

  function Rules(): seq<Rule> {
    [Rule("to_date", "str_to_date", "str_to_date"),
     Rule("to_char", "date_format", ""),
     Rule("yyyy-mm-dd hh24:mi:ss", "%Y-%m-%d %H:%i:%s", ""),
     Rule("yyyymmddhh24miss", "%Y%m%d%H%i%s", ""),
     Rule("sysdate", "sysdate()", "sysdate()")]
  }

  /** Neither the terminator nor a mark. */
  predicate Clean(s: string) {
    forall i :: 0 <= i < |s| ==> s[i] != NUL && s[i] != '?'
  }

  predicate Sound(r: Rule) {
    && r.from != [] && |r.to| <= 9 * |r.from|
    && Clean(r.from) && Clean(r.to)
  }

  function ApplyRule(s: string, r: Rule): string
    requires r.from != []
  {
    if r.unless != [] && Contains(s, r.unless) then s else ReplaceAll(s, r.from, r.to)
  }

  predicate AllSound(rules: seq<Rule>) {
    forall i :: 0 <= i < |rules| ==> Sound(rules[i])
  }

  function ApplyRules(s: string, rules: seq<Rule>): string
    requires AllSound(rules)
    decreases |rules|
  {
    if rules == [] then s
    else
      assert Sound(rules[0]);
      ApplyRules(ApplyRule(s, rules[0]), rules[1..])
  }

  lemma DateRulesSound(a: Rule, b: Rule)
    requires a == Rules()[0] && b == Rules()[1]
    ensures Sound(a) && Sound(b)
  {
  }

  lemma FormatRulesSound(a: Rule)
    requires a == Rules()[2] || a == Rules()[3]
    ensures Sound(a)
  {
  }

  lemma SysdateRuleSound(a: Rule)
    requires a == Rules()[4]
    ensures Sound(a)
  {
  }

  lemma RulesAreSound()
    ensures AllSound(Rules())
  {
    var rules := Rules();
    DateRulesSound(rules[0], rules[1]);
    FormatRulesSound(rules[2]);
    FormatRulesSound(rules[3]);
    SysdateRuleSound(rules[4]);
  }

  /** The text handed to the database. */
  function Prepared(sql: string): string {
    RulesAreSound();
    ApplyRules(Descend(sql, MAXPARAMS), Rules())
  }

  // ---------- what the dialect rewritings do to a text ----------

  lemma RuleSwaps(s: string, r: Rule, a: string, b: string, guard: string)
    requires r == Rule(a, b, guard) && a != []
    ensures ApplyRule(s, r) == if guard != [] && Contains(s, guard) then s else Swapped(s, a, b)
  {
    ReplacedIsSwapped(s, a, b);
  }

  lemma DateSwaps(s: string, r: Rule)
    requires r == Rules()[0]
    ensures ApplyRule(s, r) == if Contains(s, "str_to_date") then s else Swapped(s, "to_date", "str_to_date")
  {
    RuleSwaps(s, r, "to_date", "str_to_date", "str_to_date");
  }

  lemma CharSwaps(s: string, r: Rule)
    requires r == Rules()[1]
    ensures ApplyRule(s, r) == Swapped(s, "to_char", "date_format")
  {
    RuleSwaps(s, r, "to_char", "date_format", "");
  }

  lemma DashedSwaps(s: string, r: Rule)
    requires r == Rules()[2]
    ensures ApplyRule(s, r) == Swapped(s, "yyyy-mm-dd hh24:mi:ss", "%Y-%m-%d %H:%i:%s")
  {
    RuleSwaps(s, r, "yyyy-mm-dd hh24:mi:ss", "%Y-%m-%d %H:%i:%s", "");
  }

  lemma CompactSwaps(s: string, r: Rule)
    requires r == Rules()[3]
    ensures ApplyRule(s, r) == Swapped(s, "yyyymmddhh24miss", "%Y%m%d%H%i%s")
  {
    RuleSwaps(s, r, "yyyymmddhh24miss", "%Y%m%d%H%i%s", "");
  }

  lemma SysdateSwaps(s: string, r: Rule)
    requires r == Rules()[4]
    ensures ApplyRule(s, r) == if Contains(s, "sysdate()") then s else Swapped(s, "sysdate", "sysdate()")
  {
    RuleSwaps(s, r, "sysdate", "sysdate()", "sysdate()");
  }

  /** What becomes of any statement behind the placeholders: five texts are looked for, one after the other, and
      each copy gives way to another text; two of them not if their new form is there already. */
  lemma FiveSwaps(sql: string) returns (s1: string, s2: string, s3: string, s4: string)
    ensures var d := Descend(sql, 256);
            s1 == if Contains(d, "str_to_date") then d else Swapped(d, "to_date", "str_to_date")
    ensures s2 == Swapped(s1, "to_char", "date_format")
    ensures s3 == Swapped(s2, "yyyy-mm-dd hh24:mi:ss", "%Y-%m-%d %H:%i:%s")
    ensures s4 == Swapped(s3, "yyyymmddhh24miss", "%Y%m%d%H%i%s")
    ensures Prepared(sql) == if Contains(s4, "sysdate()") then s4 else Swapped(s4, "sysdate", "sysdate()")
  {
    RulesAreSound();
    var rules, d := Rules(), Descend(sql, MAXPARAMS);
    s1 := ApplyRule(d, rules[0]);
    s2 := ApplyRule(s1, rules[1]);
    s3 := ApplyRule(s2, rules[2]);
    s4 := ApplyRule(s3, rules[3]);
    var s5 := ApplyRule(s4, rules[4]);
    DateSwaps(d, rules[0]);
    CharSwaps(s1, rules[1]);
    DashedSwaps(s2, rules[2]);
    CompactSwaps(s3, rules[3]);
    SysdateSwaps(s4, rules[4]);
    FiveRules(d, s1, s2, s3, s4, s5, rules);
  }

  predicate DatesSettled(s: string) {
    Contains(s, "str_to_date") || !Contains(s, "to_date")
  }

  predicate NoFormats(s: string) {
    !Contains(s, "yyyy-mm-dd hh24:mi:ss") && !Contains(s, "yyyymmddhh24miss")
  }

  predicate SysdateSettled(s: string) {
    Contains(s, "sysdate()") || !Contains(s, "sysdate")
  }

  /** A text without the old names, or that has the new ones already, is handed on as it is. */
  lemma SettledStays(sql: string, d: string)
    requires d == Descend(sql, 256) && DatesSettled(d) && !Contains(d, "to_char") && NoFormats(d) && SysdateSettled(d)
    ensures Prepared(sql) == d && (':' !in sql ==> Prepared(sql) == sql)
  {
    var s1, s2, s3, s4 := FiveSwaps(sql);
    NothingSwapped(d, "to_char", "date_format");
    NothingSwapped(d, "yyyy-mm-dd hh24:mi:ss", "%Y-%m-%d %H:%i:%s");
    NothingSwapped(d, "yyyymmddhh24miss", "%Y%m%d%H%i%s");
    if !Contains(d, "to_date") {
      NothingSwapped(d, "to_date", "str_to_date");
    }
    if !Contains(d, "sysdate") {
      NothingSwapped(d, "sysdate", "sysdate()");
    }
    if ':' !in sql {
      NoColonKept(sql, MAXPARAMS);
    }
  }

  // In the next five, one old name stands between texts, any number of times, and the others do not occur: each
  // copy of it gives way to the new name and the texts are what they were.

  lemma DatesRewritten(sql: string, texts: seq<string>, d: string, t: string)
    requires texts != [] && Separable(texts, "to_date") && d == Descend(sql, 256) == Join(texts, "to_date")
    requires !Contains(d, "str_to_date") && t == Join(texts, "str_to_date")
    requires !Contains(t, "to_char") && NoFormats(t) && SysdateSettled(t)
    ensures Prepared(sql) == t
  {
    var s1, s2, s3, s4 := FiveSwaps(sql);
    TextsKept(texts, "to_date", "str_to_date");
    NothingSwapped(t, "to_char", "date_format");
    NothingSwapped(t, "yyyy-mm-dd hh24:mi:ss", "%Y-%m-%d %H:%i:%s");
    NothingSwapped(t, "yyyymmddhh24miss", "%Y%m%d%H%i%s");
    if !Contains(t, "sysdate") {
      NothingSwapped(t, "sysdate", "sysdate()");
    }
  }

  lemma CharsRewritten(sql: string, texts: seq<string>, d: string, t: string)
    requires texts != [] && Separable(texts, "to_char") && d == Descend(sql, 256) == Join(texts, "to_char")
    requires DatesSettled(d) && t == Join(texts, "date_format")
    requires NoFormats(t) && SysdateSettled(t)
    ensures Prepared(sql) == t
  {
    var s1, s2, s3, s4 := FiveSwaps(sql);
    if !Contains(d, "to_date") {
      NothingSwapped(d, "to_date", "str_to_date");
    }
    TextsKept(texts, "to_char", "date_format");
    NothingSwapped(t, "yyyy-mm-dd hh24:mi:ss", "%Y-%m-%d %H:%i:%s");
    NothingSwapped(t, "yyyymmddhh24miss", "%Y%m%d%H%i%s");
    if !Contains(t, "sysdate") {
      NothingSwapped(t, "sysdate", "sysdate()");
    }
  }

  lemma DashedRewritten(sql: string, texts: seq<string>, d: string, t: string)
    requires texts != [] && Separable(texts, "yyyy-mm-dd hh24:mi:ss")
    requires d == Descend(sql, 256) == Join(texts, "yyyy-mm-dd hh24:mi:ss")
    requires DatesSettled(d) && !Contains(d, "to_char") && t == Join(texts, "%Y-%m-%d %H:%i:%s")
    requires !Contains(t, "yyyymmddhh24miss") && SysdateSettled(t)
    ensures Prepared(sql) == t
  {
    var s1, s2, s3, s4 := FiveSwaps(sql);
    if !Contains(d, "to_date") {
      NothingSwapped(d, "to_date", "str_to_date");
    }
    NothingSwapped(d, "to_char", "date_format");
    TextsKept(texts, "yyyy-mm-dd hh24:mi:ss", "%Y-%m-%d %H:%i:%s");
    NothingSwapped(t, "yyyymmddhh24miss", "%Y%m%d%H%i%s");
    if !Contains(t, "sysdate") {
      NothingSwapped(t, "sysdate", "sysdate()");
    }
  }

  lemma CompactRewritten(sql: string, texts: seq<string>, d: string, t: string)
    requires texts != [] && Separable(texts, "yyyymmddhh24miss")
    requires d == Descend(sql, 256) == Join(texts, "yyyymmddhh24miss")
    requires DatesSettled(d) && !Contains(d, "to_char") && !Contains(d, "yyyy-mm-dd hh24:mi:ss")
    requires t == Join(texts, "%Y%m%d%H%i%s") && SysdateSettled(t)
    ensures Prepared(sql) == t
  {
    var s1, s2, s3, s4 := FiveSwaps(sql);
    if !Contains(d, "to_date") {
      NothingSwapped(d, "to_date", "str_to_date");
    }
    NothingSwapped(d, "to_char", "date_format");
    NothingSwapped(d, "yyyy-mm-dd hh24:mi:ss", "%Y-%m-%d %H:%i:%s");
    TextsKept(texts, "yyyymmddhh24miss", "%Y%m%d%H%i%s");
    if !Contains(t, "sysdate") {
      NothingSwapped(t, "sysdate", "sysdate()");
    }
  }

  lemma SysdateRewritten(sql: string, texts: seq<string>, d: string)
    requires texts != [] && Separable(texts, "sysdate") && d == Descend(sql, 256) == Join(texts, "sysdate")
    requires DatesSettled(d) && !Contains(d, "to_char") && NoFormats(d) && !Contains(d, "sysdate()")
    ensures Prepared(sql) == Join(texts, "sysdate()")
  {
    var s1, s2, s3, s4 := FiveSwaps(sql);
    if !Contains(d, "to_date") {
      NothingSwapped(d, "to_date", "str_to_date");
    }
    NothingSwapped(d, "to_char", "date_format");
    NothingSwapped(d, "yyyy-mm-dd hh24:mi:ss", "%Y-%m-%d %H:%i:%s");
    NothingSwapped(d, "yyyymmddhh24miss", "%Y%m%d%H%i%s");
    TextsKept(texts, "sysdate", "sysdate()");
  }

  lemma {:induction false} RulesKeepMarks(s: string, rules: seq<Rule>)
    requires AllSound(rules)
    ensures Marks(ApplyRules(s, rules)) == Marks(s)
    decreases |rules|
  {
    if rules != [] {
      assert Sound(rules[0]);
      ReplaceKeepsMarks(s, rules[0].from, rules[0].to);
      RulesKeepMarks(ApplyRule(s, rules[0]), rules[1..]);
    }
  }

  lemma {:induction false} MarksOfMarked(texts: seq<string>)
    requires texts != [] && forall i :: 0 <= i < |texts| ==> '?' !in texts[i]
    ensures Marks(Marked(texts)) == |texts| - 1
  {
    NoMarks(texts[0]);
    if |texts| > 1 {
      MarksOfMarked(texts[1..]);
      MarksAppend("?", Marked(texts[1..]));
      MarksAppend(texts[0], "?" + Marked(texts[1..]));
    }
  }

  /** What the database counts as parameters are the placeholders written: none is lost or added on the way. */
  lemma ParameterCount(texts: seq<string>)
    requires Template(texts) && |texts| - 1 <= MAXPARAMS
    requires forall i :: 0 <= i < |texts| ==> '?' !in texts[i]
    ensures Marks(Prepared(Numbered(texts, 1))) == |texts| - 1
  {
    InOrderPlaceholders(texts);
    RulesAreSound();
    RulesKeepMarks(Marked(texts), Rules());
    MarksOfMarked(texts);
  }

  /** Room for every intermediate text of the dialect rewritings. */
  ghost predicate RoomFor(size: nat, s: string, rules: seq<Rule>)
    requires AllSound(rules)
    decreases |rules|
  {
    |s| < size && (rules != [] ==> Sound(rules[0]) && RoomFor(size, ApplyRule(s, rules[0]), rules[1..]))
  }

  ghost predicate RoomToPrepare(size: nat, sql: string) {
    RulesAreSound();
    RoomFor(size, Descend(sql, MAXPARAMS), Rules())
  }

  /** What formatting leaves in the statement buffer: a C string, cut off at the limit. */
  function Formatted(text: string): (sql: string)
    ensures |sql| < 10240 && NUL !in sql && sql <= text
    ensures |sql| < |text| && text[|sql|] != NUL ==> |sql| == 10239
  {
    var s := CStr(text);
    if |s| < SQL_LIMIT then s else s[..SQL_LIMIT - 1]
  }

  // ---------- how long a statement may get ----------

  function WeightTo(s: string, w: char -> nat, n: nat): nat
    requires n <= |s|
  {
    if n == 0 then 0 else WeightTo(s, w, n - 1) + w(s[n - 1])
  }

  function Weight(s: string, w: char -> nat): nat {
    WeightTo(s, w, |s|)
  }

  lemma {:induction false} WeightOfFront(s: string, t: string, w: char -> nat, n: nat)
    requires n <= |s|
    ensures WeightTo(s + t, w, n) == WeightTo(s, w, n)
  {
    if n > 0 {
      WeightOfFront(s, t, w, n - 1);
    }
  }

  lemma {:induction false} WeightBehind(s: string, t: string, w: char -> nat, n: nat)
    requires n <= |t|
    ensures WeightTo(s + t, w, |s| + n) == Weight(s, w) + WeightTo(t, w, n)
  {
    if n == 0 {
      WeightOfFront(s, t, w, |s|);
    } else {
      WeightBehind(s, t, w, n - 1);
    }
  }

  lemma WeightAppend(s: string, t: string, w: char -> nat)
    ensures Weight(s + t, w) == Weight(s, w) + Weight(t, w)
  {
    WeightBehind(s, t, w, |t|);
  }

  lemma {:induction false} WeightToAtLeast(s: string, w: char -> nat, low: nat, n: nat)
    requires n <= |s| && forall c :: low <= w(c)
    ensures low * n <= WeightTo(s, w, n)
  {
    if n > 0 {
      WeightToAtLeast(s, w, low, n - 1);
      assert low * n == low * (n - 1) + low;
    }
  }

  lemma WeightAtLeast(s: string, w: char -> nat, low: nat)
    requires forall c :: low <= w(c)
    ensures low * |s| <= Weight(s, w)
  {
    WeightToAtLeast(s, w, low, |s|);
  }

  lemma WeightOfOne(c: char, w: char -> nat)
    ensures Weight([c], w) == w(c)
  {
    assert WeightTo([c], w, 0) == 0;
  }

  /** A text weighs no more after a pass than before if no character does and the new text does not weigh more
      than the old. */
  lemma {:induction false} PassKeepsWeight(s: string, a: string, b: string, w: char -> nat, v: char -> nat)
    requires a != [] && (forall c :: v(c) <= w(c)) && Weight(b, v) <= Weight(a, w)
    ensures Weight(ReplaceAll(s, a, b), v) <= Weight(s, w)
    decreases |s|
  {
    if s == [] {
    } else if a <= s {
      PassKeepsWeight(s[|a|..], a, b, w, v);
      WeightAppend(a, s[|a|..], w);
      WeightAppend(b, ReplaceAll(s[|a|..], a, b), v);
      assert s == a + s[|a|..];
    } else {
      PassKeepsWeight(s[1..], a, b, w, v);
      WeightAppend([s[0]], s[1..], w);
      WeightAppend([s[0]], ReplaceAll(s[1..], a, b), v);
      WeightOfOne(s[0], w);
      WeightOfOne(s[0], v);
      assert s == [s[0]] + s[1..];
    }
  }

  lemma {:induction false} SkipKeepsWeight(s: string, w: char -> nat, v: char -> nat, n: nat)
    requires n <= |s| && forall c :: v(c) <= w(c)
    ensures WeightTo(s, v, n) <= WeightTo(s, w, n)
  {
    if n > 0 {
      SkipKeepsWeight(s, w, v, n - 1);
    }
  }

  lemma RuleKeepsWeight(s: string, r: Rule, w: char -> nat, v: char -> nat)
    requires r.from != [] && (forall c :: v(c) <= w(c)) && Weight(r.to, v) <= Weight(r.from, w)
    ensures Weight(ApplyRule(s, r), v) <= Weight(s, w)
  {
    PassKeepsWeight(s, r.from, r.to, w, v);
    SkipKeepsWeight(s, w, v, |s|);
  }

  // What a character can still grow to, in twentieths: before any rule, after the first, after the second, and
  // when all is done.

  function AtFirst(c: char): nat {
    39
  }

  function AfterDates(c: char): nat {
    match c
    case 'y' => 39
    case 'c' => 39
    case 'h' => 39
    case 'a' => 34
    case 'r' => 34
    case 'o' => 34
    case 's' => 31
    case _ => 20
  }

  function AfterChars(c: char): nat {
    match c
    case 'y' => 39
    case 's' => 31
    case _ => 20
  }

  function AtLast(c: char): nat {
    20
  }

  lemma {:induction false} WeightToSame(s: string, w: char -> nat, each: nat, n: nat)
    requires n <= |s| && forall i :: 0 <= i < n ==> w(s[i]) == each
    ensures WeightTo(s, w, n) == each * n
  {
    if n > 0 {
      WeightToSame(s, w, each, n - 1);
      assert each * n == each * (n - 1) + each;
    }
  }

  lemma WeightSame(s: string, w: char -> nat, each: nat)
    requires forall i :: 0 <= i < |s| ==> w(s[i]) == each
    ensures Weight(s, w) == each * |s|
  {
    WeightToSame(s, w, each, |s|);
  }

  lemma WeightOfThree(s: string, w: char -> nat)
    requires |s| == 3
    ensures Weight(s, w) == w(s[0]) + w(s[1]) + w(s[2])
  {
    assert WeightTo(s, w, 2) == WeightTo(s, w, 1) + w(s[1]);
  }

  lemma WeightOfFour(s: string, w: char -> nat)
    requires |s| == 4
    ensures Weight(s, w) == w(s[0]) + w(s[1]) + w(s[2]) + w(s[3])
  {
    assert WeightTo(s, w, 2) == WeightTo(s, w, 1) + w(s[1]);
    assert WeightTo(s, w, 3) == WeightTo(s, w, 2) + w(s[2]);
  }

  lemma DateWeights(from: string, to: string, a: string, b: string, c: string)
    requires from == "to_date" && to == "str_to_date" && a == "str_" && b == "to_" && c == "date"
    ensures Weight(to, AfterDates) <= Weight(from, AtFirst)
  {
    WeightSame(from, AtFirst, 39);
    WeightOfFour(a, AfterDates);
    WeightOfThree(b, AfterDates);
    WeightOfFour(c, AfterDates);
    WeightAppend(b, c, AfterDates);
    WeightAppend(a, b + c, AfterDates);
    assert to == a + (b + c);
  }

  lemma CharWeights(from: string, to: string, a: string, b: string)
    requires from == "to_char" && to == "date_format" && a == "to_" && b == "char"
    ensures Weight(to, AfterChars) <= Weight(from, AfterDates)
  {
    WeightSame(to, AfterChars, 20);
    WeightOfThree(a, AfterDates);
    WeightOfFour(b, AfterDates);
    WeightAppend(a, b, AfterDates);
    assert from == a + b;
  }

  lemma FormatWeights(from: string, to: string, front: string)
    requires to == front + ['s'] && |from| >= |to| + 1
    requires forall i :: 0 <= i < |front| ==> front[i] != 's' && front[i] != 'y'
    ensures Weight(to, AfterChars) <= Weight(from, AfterChars)
  {
    WeightAtLeast(from, AfterChars, 20);
    WeightSame(front, AfterChars, 20);
    WeightAppend(front, ['s'], AfterChars);
    WeightOfOne('s', AfterChars);
  }

  lemma SysdateWeights(from: string, to: string, a: string, b: string)
    requires from == "sysdate" && to == "sysdate()" && a == "sys" && b == "date"
    ensures Weight(to, AtLast) <= Weight(from, AfterChars)
  {
    WeightSame(to, AtLast, 20);
    WeightOfThree(a, AfterChars);
    WeightOfFour(b, AfterChars);
    WeightAppend(a, b, AfterChars);
    assert from == a + b;
  }

  lemma DatesBalanced(r: Rule)
    requires r == Rules()[0]
    ensures Weight(r.to, AfterDates) <= Weight(r.from, AtFirst)
  {
    DateWeights(r.from, r.to, "str_", "to_", "date");
  }

  lemma CharsBalanced(r: Rule)
    requires r == Rules()[1]
    ensures Weight(r.to, AfterChars) <= Weight(r.from, AfterDates)
  {
    CharWeights(r.from, r.to, "to_", "char");
  }

  lemma DashedBalanced(r: Rule)
    requires r == Rules()[2]
    ensures Weight(r.to, AfterChars) <= Weight(r.from, AfterChars)
  {
    FormatWeights(r.from, r.to, r.to[..16]);
  }

  lemma PlainBalanced(r: Rule)
    requires r == Rules()[3]
    ensures Weight(r.to, AfterChars) <= Weight(r.from, AfterChars)
  {
    FormatWeights(r.from, r.to, r.to[..11]);
  }

  lemma SysdateBalanced(r: Rule)
    requires r == Rules()[4]
    ensures Weight(r.to, AtLast) <= Weight(r.from, AfterChars)
  {
    SysdateWeights(r.from, r.to, "sys", "date");
  }

  lemma {:induction false} PlaceholdersShrink(s: string, n: nat)
    ensures |Descend(s, n)| <= |s|
    decreases n
  {
    if n > 0 {
      ReplaceLength(s, Pattern(n), "?");
      PlaceholdersShrink(ReplaceAll(s, Pattern(n), "?"), n - 1);
    }
  }

  lemma RoomForNext(size: nat, s: string, rules: seq<Rule>)
    requires AllSound(rules) && rules != [] && |s| < size
    requires AllSound(rules[1..]) && RoomFor(size, ApplyRule(s, rules[0]), rules[1..])
    ensures RoomFor(size, s, rules)
  {
    assert Sound(rules[0]);
  }

  /** Growth of a text through the rules, one after the other. */
  lemma {:induction false} ChainFits(size: nat, texts: seq<string>, rules: seq<Rule>)
    requires AllSound(rules) && |texts| == |rules| + 1
    requires forall i :: 0 <= i < |rules| ==> Sound(rules[i]) && texts[i + 1] == ApplyRule(texts[i], rules[i])
    requires forall i :: 0 <= i < |texts| ==> |texts[i]| < size
    ensures RoomFor(size, texts[0], rules)
    decreases |rules|
  {
    if rules != [] {
      assert AllSound(rules[1..]);
      ChainFits(size, texts[1..], rules[1..]);
      RoomForNext(size, texts[0], rules);
    }
  }

  /** Rules that keep the weights, from the first to the last. */
  ghost predicate Balanced(rules: seq<Rule>) {
    && |rules| == 5
    && Weight(rules[0].to, AfterDates) <= Weight(rules[0].from, AtFirst)
    && Weight(rules[1].to, AfterChars) <= Weight(rules[1].from, AfterDates)
    && Weight(rules[2].to, AfterChars) <= Weight(rules[2].from, AfterChars)
    && Weight(rules[3].to, AfterChars) <= Weight(rules[3].from, AfterChars)
    && Weight(rules[4].to, AtLast) <= Weight(rules[4].from, AfterChars)
  }

  lemma RulesAreBalanced()
    ensures Balanced(Rules())
  {
    var rules := Rules();
    DatesBalanced(rules[0]);
    CharsBalanced(rules[1]);
    DashedBalanced(rules[2]);
    PlainBalanced(rules[3]);
    SysdateBalanced(rules[4]);
  }

  /** The longest statement for which these weights promise room. */
  const SAFE_LENGTH := 5251

  ghost predicate Light(s: string, w: char -> nat) {
    Weight(s, w) <= 39 * SAFE_LENGTH && |s| <= SQL_LIMIT
  }

  lemma StillLight(s: string, r: Rule, w: char -> nat, v: char -> nat)
    requires Light(s, w) && r.from != [] && Weight(r.to, v) <= Weight(r.from, w)
    requires forall c :: 20 <= v(c) <= w(c)
    ensures Light(ApplyRule(s, r), v)
  {
    RuleKeepsWeight(s, r, w, v);
    WeightAtLeast(ApplyRule(s, r), v, 20);
  }

  lemma LightThroughDates(s: string, r: Rule)
    requires Light(s, AtFirst) && r.from != [] && Weight(r.to, AfterDates) <= Weight(r.from, AtFirst)
    ensures Light(ApplyRule(s, r), AfterDates)
  {
    StillLight(s, r, AtFirst, AfterDates);
  }

  lemma LightThroughChars(s: string, r: Rule)
    requires Light(s, AfterDates) && r.from != [] && Weight(r.to, AfterChars) <= Weight(r.from, AfterDates)
    ensures Light(ApplyRule(s, r), AfterChars)
  {
    StillLight(s, r, AfterDates, AfterChars);
  }

  lemma LightThroughFormat(s: string, r: Rule)
    requires Light(s, AfterChars) && r.from != [] && Weight(r.to, AfterChars) <= Weight(r.from, AfterChars)
    ensures Light(ApplyRule(s, r), AfterChars)
  {
    StillLight(s, r, AfterChars, AfterChars);
  }

  lemma LightThroughSysdate(s: string, r: Rule)
    requires Light(s, AfterChars) && r.from != [] && Weight(r.to, AtLast) <= Weight(r.from, AfterChars)
    ensures Light(ApplyRule(s, r), AtLast)
  {
    StillLight(s, r, AfterChars, AtLast);
  }

  lemma BalancedFits(size: nat, s0: string, rules: seq<Rule>)
    requires AllSound(rules) && Balanced(rules) && |s0| <= SAFE_LENGTH && size > SQL_LIMIT
    ensures RoomFor(size, s0, rules)
  {
    assert forall i :: 0 <= i < 5 ==> Sound(rules[i]);
    WeightSame(s0, AtFirst, 39);
    var s1 := ApplyRule(s0, rules[0]);
    var s2 := ApplyRule(s1, rules[1]);
    var s3 := ApplyRule(s2, rules[2]);
    var s4 := ApplyRule(s3, rules[3]);
    var s5 := ApplyRule(s4, rules[4]);
    LightThroughDates(s0, rules[0]);
    LightThroughChars(s1, rules[1]);
    LightThroughFormat(s2, rules[2]);
    LightThroughFormat(s3, rules[3]);
    LightThroughSysdate(s4, rules[4]);
    FiveFit(size, [s0, s1, s2, s3, s4, s5], rules);
  }

  lemma FiveFit(size: nat, texts: seq<string>, rules: seq<Rule>)
    requires AllSound(rules) && |rules| == 5 && |texts| == 6
    requires forall i :: 0 <= i < 5 ==> rules[i].from != [] && texts[i + 1] == ApplyRule(texts[i], rules[i])
    requires forall i :: 0 <= i < 6 ==> |texts[i]| < size
    ensures RoomFor(size, texts[0], rules)
  {
    assert forall i :: 0 <= i < 5 ==> Sound(rules[i]);
    ChainFits(size, texts, rules);
  }

  /** Statements of up to 5251 characters are always prepared within the buffer. */
  lemma ShortStatementsFit(sql: string)
    requires |sql| <= SAFE_LENGTH
    ensures RoomToPrepare(SQL_LIMIT + 1, sql)
  {
    RulesAreSound();
    RulesAreBalanced();
    PlaceholdersShrink(sql, MAXPARAMS);
    BalancedFits(SQL_LIMIT + 1, Descend(sql, MAXPARAMS), Rules());
  }

  // ---------- a statement that outgrows the buffer ----------

  lemma {:induction false} OnlyFromUnit(unit: string, n: nat, c: char)
    requires c !in unit
    ensures c !in Copies(unit, n)
  {
    if n > 0 {
      OnlyFromUnit(unit, n - 1, c);
    }
  }

  /** Text with a character that does not occur is not found and not replaced. */
  lemma AbsentKept(s: string, a: string, b: string, k: nat)
    requires k < |a| && a[k] !in s
    ensures ReplaceAll(s, a, b) == s && !Contains(s, a)
  {
    forall i | 0 <= i
      ensures !OccursAt(s, a, i)
    {
      if i + |a| <= |s| {
        assert s[i..i + |a|][k] == s[i + k];
      }
    }
    FindIs(s, a, 0, -1);
    ReplaceBySearch(s, a, b, -1);
  }

  lemma {:induction false} NoColonKept(s: string, n: nat)
    requires ':' !in s
    ensures Descend(s, n) == s
    decreases n
  {
    if n > 0 {
      AbsentKept(s, Pattern(n), "?", 0);
      NoColonKept(s, n - 1);
    }
  }

  /** A pass over copies replaces the one occurrence in each. */
  lemma {:induction false} CopiesReplaced(front: string, a: string, back: string, b: string, n: nat)
    requires a != [] && forall i :: 0 <= i < |front| ==> front[i] != a[0]
    requires forall i :: 0 <= i < |back| ==> back[i] != a[0]
    ensures ReplaceAll(Copies(front + (a + back), n), a, b) == Copies(front + (b + back), n)
  {
    if n > 0 {
      var rest := Copies(front + (a + back), n - 1);
      CopiesReplaced(front, a, back, b, n - 1);
      var done := Copies(front + (b + back), n - 1);
      PlainPassed(back, rest, a, b);
      OldReplaced(a, back + rest, b);
      PlainPassed(front, a + (back + rest), a, b);
      Regrouped(front, a, back, rest);
      Regrouped(front, b, back, done);
    }
  }

  lemma Regrouped(front: string, a: string, back: string, rest: string)
    ensures front + (a + back) + rest == front + (a + (back + rest))
  {
  }

  lemma OldReplaced(a: string, rest: string, b: string)
    requires a != []
    ensures ReplaceAll(a + rest, a, b) == b + ReplaceAll(rest, a, b)
  {
    assert (a + rest)[|a|..] == rest;
  }

  lemma {:induction false} PlainPassed(t: string, rest: string, a: string, b: string)
    requires a != [] && forall i :: 0 <= i < |t| ==> t[i] != a[0]
    ensures ReplaceAll(t + rest, a, b) == t + ReplaceAll(rest, a, b)
  {
    if t == [] {
      assert t + rest == rest && t + ReplaceAll(rest, a, b) == ReplaceAll(rest, a, b);
    } else {
      PlainPassed(t[1..], rest, a, b);
      assert (t + rest)[1..] == t[1..] + rest;
      HeadBack(t, ReplaceAll(rest, a, b));
    }
  }

  /** Five rules that take copies of `u0` to copies of `u1` and those to copies of `u2`. */
  predicate TakesTo(rules: seq<Rule>, u0: string, u1: string, u2: string) {
    && |rules| == 5
    && |rules[0].from| > 3 && rules[0].from[3] !in u0
    && |rules[1].from| > 0 && rules[1].from[0] !in "sys" && rules[1].unless == []
    && u0 == "sys" + (rules[1].from + "") && u1 == "sys" + (rules[1].to + "")
    && |rules[2].from| > 4 && rules[2].from[4] == '-'
    && |rules[3].from| > 10 && rules[3].from[10] == '2'
    && |rules[4].from| > 0 && rules[4].from[0] !in "_format" && |rules[4].unless| > 7 && rules[4].unless[7] !in u1
    && u1 == "" + (rules[4].from + "_format") && u2 == "" + (rules[4].to + "_format")
  }

  lemma RulesTake(u0: string, u1: string, u2: string)
    requires u0 == "systo_char" && u1 == "sysdate_format" && u2 == "sysdate()_format"
    ensures TakesTo(Rules(), u0, u1, u2)
  {
    var rules := Rules();
    DatesLetter(rules[0], u0);
    CharsUnits(rules[1], u0, u1);
    DashedLetter(rules[2]);
    PlainLetter(rules[3]);
    SysdateUnits(rules[4], u1, u2);
  }

  lemma CopiesRewritten(n: nat, u0: string, u1: string, u2: string, rules: seq<Rule>)
    requires AllSound(rules) && TakesTo(rules, u0, u1, u2) && '-' !in u1 && '2' !in u1
    ensures ApplyRules(Copies(u0, n), rules) == Copies(u2, n)
  {
    CopiesKept(n, u0, rules[0], 3);
    CopiesRuled(n, rules[1], "sys", "", 0);
    CopiesKept(n, u1, rules[2], 4);
    CopiesKept(n, u1, rules[3], 10);
    CopiesRuled(n, rules[4], "", "_format", 7);
    FiveRules(Copies(u0, n), Copies(u0, n), Copies(u1, n), Copies(u1, n), Copies(u1, n), Copies(u2, n), rules);
  }

  lemma UnitLetters(u0: string, u1: string)
    requires u0 == "systo_char" && u1 == "sysdate_format"
    ensures ':' !in u0 && NUL !in u0 && '-' !in u1 && '2' !in u1
  {
  }

  /** A statement that grows by more than half: each copy of ten characters ends up with sixteen. */
  lemma CopiesPrepared(n: nat, u0: string, u1: string, u2: string)
    requires u0 == "systo_char" && u1 == "sysdate_format" && u2 == "sysdate()_format"
    ensures Prepared(Copies(u0, n)) == Copies(u2, n)
  {
    UnitLetters(u0, u1);
    OnlyFromUnit(u0, n, ':');
    NoColonKept(Copies(u0, n), MAXPARAMS);
    RulesAreSound();
    RulesTake(u0, u1, u2);
    CopiesRewritten(n, u0, u1, u2, Rules());
  }

  lemma FiveRules(s0: string, s1: string, s2: string, s3: string, s4: string, s5: string, rules: seq<Rule>)
    requires AllSound(rules) && |rules| == 5 && forall i :: 0 <= i < 5 ==> rules[i].from != []
    requires s1 == ApplyRule(s0, rules[0]) && s2 == ApplyRule(s1, rules[1]) && s3 == ApplyRule(s2, rules[2])
    requires s4 == ApplyRule(s3, rules[3]) && s5 == ApplyRule(s4, rules[4])
    ensures ApplyRules(s0, rules) == s5
  {
    var r1, r2, r3, r4 := rules[1..], rules[2..], rules[3..], rules[4..];
    assert r1[1..] == r2 && r2[1..] == r3 && r3[1..] == r4 && r4[1..] == [];
    assert ApplyRules(s4, r4) == s5;
    assert ApplyRules(s3, r3) == s5;
    assert ApplyRules(s2, r2) == s5;
    assert ApplyRules(s1, r1) == s5;
  }

  lemma CopiesKept(n: nat, u: string, r: Rule, k: nat)
    requires k < |r.from| && r.from[k] !in u
    ensures ApplyRule(Copies(u, n), r) == Copies(u, n)
  {
    OnlyFromUnit(u, n, r.from[k]);
    AbsentKept(Copies(u, n), r.from, r.to, k);
  }

  lemma CopiesRuled(n: nat, r: Rule, front: string, back: string, k: nat)
    requires r.from != [] && r.from[0] !in front && r.from[0] !in back
    requires r.unless == [] || (k < |r.unless| && r.unless[k] !in front + (r.from + back))
    ensures ApplyRule(Copies(front + (r.from + back), n), r) == Copies(front + (r.to + back), n)
  {
    if r.unless != [] {
      OnlyFromUnit(front + (r.from + back), n, r.unless[k]);
      AbsentKept(Copies(front + (r.from + back), n), r.unless, "", k);
    }
    CopiesReplaced(front, r.from, back, r.to, n);
  }

  lemma DatesLetter(r: Rule, u: string)
    requires r == Rules()[0] && u == "systo_char"
    ensures |r.from| > 3 && r.from[3] !in u
  {
  }

  lemma CharsUnits(r: Rule, u: string, v: string)
    requires r == Rules()[1] && u == "systo_char" && v == "sysdate_format"
    ensures r.from != [] && r.from[0] !in "sys" && r.unless == []
    ensures u == "sys" + (r.from + "") && v == "sys" + (r.to + "")
  {
  }

  lemma DashedLetter(r: Rule)
    requires r == Rules()[2]
    ensures |r.from| > 4 && r.from[4] == '-'
  {
  }

  lemma PlainLetter(r: Rule)
    requires r == Rules()[3]
    ensures |r.from| > 10 && r.from[10] == '2'
  {
  }

  lemma SysdateUnits(r: Rule, u: string, v: string)
    requires r == Rules()[4] && u == "sysdate_format" && v == "sysdate()_format"
    ensures r.from != [] && r.from[0] !in "_format"
    ensures |r.unless| > 7 && r.unless[7] !in u
    ensures u == "" + (r.from + "_format") && v == "" + (r.to + "_format")
  {
  }

  lemma {:induction false} ResultHadRoom(size: nat, s: string, rules: seq<Rule>)
    requires AllSound(rules) && RoomFor(size, s, rules)
    ensures |ApplyRules(s, rules)| < size
    decreases |rules|
  {
    if rules != [] {
      assert Sound(rules[0]);
      ResultHadRoom(size, ApplyRule(s, rules[0]), rules[1..]);
    }
  }

  /** 641 copies, 6410 characters, outgrow the buffer: the text handed on would have 10256. */
  lemma LongStatementOverflows(u0: string)
    requires u0 == "systo_char"
    ensures |Formatted(Copies(u0, 641))| == 6410 && !RoomToPrepare(SQL_LIMIT + 1, Formatted(Copies(u0, 641)))
  {
    var sql := Copies(u0, 641);
    UnitLetters(u0, "sysdate_format");
    OnlyFromUnit(u0, 641, NUL);
    assert CStr(sql) == sql;
    CopiesPrepared(641, u0, "sysdate_format", "sysdate()_format");
    RulesAreSound();
    if RoomToPrepare(SQL_LIMIT + 1, sql) {
      ResultHadRoom(SQL_LIMIT + 1, Descend(sql, MAXPARAMS), Rules());
    }
  }

  /** The rewriting part of prepare, in place in the statement buffer. */
  method RewritePlaceholders(mSql: array<char>, ghost sql: string) returns (ghost t: string)
    requires Holds(mSql, sql)
    modifies mSql
    ensures Holds(mSql, t) && t == Descend(sql, MAXPARAMS)
  {
    t := sql;
    for ii := MAXPARAMS downto 0
      invariant Holds(mSql, t) && Descend(t, ii) == Descend(sql, MAXPARAMS)
    {
      assert AllDigits(Dec(ii + 1)) && NUL !in Dec(ii + 1);
      ReplaceLength(t, Pattern(ii + 1), "?");
      t := UpdateStr(mSql, ":" + Dec(ii + 1), "?", false, t, 0);
    }
  }

  method RewriteDialect(mSql: array<char>, rules: seq<Rule>, ghost s: string) returns (ghost t: string)
    requires Holds(mSql, s) && AllSound(rules) && RoomFor(mSql.Length, s, rules)
    modifies mSql
    ensures Holds(mSql, t) && t == ApplyRules(s, rules)
  {
    t := s;
    assert rules[0..] == rules;
    for i := 0 to |rules|
      invariant AllSound(rules[i..])
      invariant Holds(mSql, t) && RoomFor(mSql.Length, t, rules[i..])
      invariant ApplyRules(t, rules[i..]) == ApplyRules(s, rules)
    {
      var r := rules[i];
      ghost var left := rules[i..];
      assert left[0] == r && left[1..] == rules[i + 1..] && Sound(left[0]);
      var skip := false;
      if r.unless != [] {
        var pos := StrStr(mSql, 0, r.unless, t);
        skip := pos != -1;
      }
      if !skip {
        ScratchSuffices(t, r.from, r.to);
        assert |ReplaceAll(t, r.from, r.to)| == |ApplyRule(t, r)| < mSql.Length;
        t := UpdateStr(mSql, r.from, r.to, false, t, 0);
      }
    }
  }

  class SqlStatement {
    const mSql: array<char>
    var isOpen: bool

    constructor ()
      ensures fresh(mSql) && mSql.Length == SQL_LIMIT + 1 && !isOpen
    {
      mSql, isOpen := new char[SQL_LIMIT + 1], false;
    }

    /** `available` stands for a connection that is open and a handle that could be made. */
    method Connect(available: bool) returns (ok: bool)
      modifies this`isOpen
      ensures isOpen == (old(isOpen) || available) && ok == isOpen
    {
      if isOpen {
        return true;
      }
      isOpen := available;
      ok := available;
    }

    method Disconnect()
      requires mSql.Length > 0
      modifies this`isOpen, mSql
      ensures !isOpen
      ensures if old(isOpen) then Holds(mSql, []) else mSql[..] == old(mSql[..])
    {
      if isOpen {
        isOpen := false;
        forall i | 0 <= i < mSql.Length {
          mSql[i] := NUL;
        }
      }
    }

    /** Format the statement and rewrite it; false for a statement that is not open.  The text then in the
        buffer is the one handed to the database. */
    method Prepare(text: string) returns (ok: bool)
      requires mSql.Length == SQL_LIMIT + 1
      requires RoomToPrepare(mSql.Length, Formatted(text))
      modifies mSql
      ensures ok == isOpen
      ensures ok ==> Holds(mSql, Prepared(Formatted(text)))
      ensures !ok ==> mSql[..] == old(mSql[..])
    {
      if !isOpen {
        return false;
      }
      PutAt(mSql, 0, Formatted(text));
      RulesAreSound();
      ghost var t := RewritePlaceholders(mSql, Formatted(text));
      t := RewriteDialect(mSql, Rules(), t);
      ok := true;
    }
  }
}
