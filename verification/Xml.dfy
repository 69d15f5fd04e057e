/** Deleting a character at the ends of a buffer, and reading a field from a text of tagged values. */
module Xml {
  import opened Text
  import opened CStrings
  import opened Options

  method DeleteLChar(str: array<char>, chr: char, ghost s: string)
    requires Holds(str, s) && chr != NUL
    modifies str
    ensures Holds(str, TrimLeft(s, chr))
  {
    var len := StrLen(str, s);
    if len == 0 {
      return;
    }
    var strTemp := str[..len];
    var iTemp := 0;
    while iTemp < len && strTemp[iTemp] == chr
      invariant iTemp <= len
      invariant TrimLeft(strTemp[iTemp..], chr) == TrimLeft(strTemp, chr)
    {
      assert strTemp[iTemp..][1..] == strTemp[iTemp + 1..];
      iTemp := iTemp + 1;
    }
    PutAt(str, 0, strTemp[iTemp..]);
  }

  method DeleteRChar(str: array<char>, chr: char, ghost s: string)
    requires Holds(str, s)
    modifies str
    ensures Holds(str, TrimRight(s, chr))
  {
    var istrlen := StrLen(str, s);
    assert s[..istrlen] == s;
    while istrlen > 0
      invariant istrlen <= |s| && Holds(str, s[..istrlen])
      invariant TrimRight(s[..istrlen], chr) == TrimRight(s, chr)
    {
      assert str[istrlen - 1] == s[..istrlen][istrlen - 1];
      if str[istrlen - 1] != chr {
        break;
      }
      str[istrlen - 1] := NUL;
      assert s[..istrlen][..istrlen - 1] == s[..istrlen - 1];
      istrlen := istrlen - 1;
    }
  }

  method DeleteLRChar(str: array<char>, chr: char, ghost s: string)
    requires Holds(str, s) && chr != NUL
    modifies str
    ensures Holds(str, Trim(s, chr))
  {
    DeleteLChar(str, chr, s);
    DeleteRChar(str, chr, TrimLeft(s, chr));
  }

  // ---------- fields ----------

  function Open(name: string): string {
    "<" + (name + ">")
  }

  function Shut(name: string): string {
    "</" + (name + ">")
  }

  /** A closing tag reads like the opening tag of a name that begins with a slash. */
  lemma ShutIsOpen(name: string)
    ensures Shut(name) == Open("/" + name)
  {
    assert "</" == "<" + "/";
  }

  /** The text between the first opening tag and the first closing tag from there on. */
  function RawValue(xml: string, name: string): (r: Option<string>)
    requires '<' !in name
  {
    var start := Find(xml, Open(name), 0);
    if start == -1 then None
    else
      var end := Find(xml, Shut(name), start);
      if end == -1 then None
      else
        TagsDoNotOverlap(xml, name, start, end);
        Some(xml[start + |name| + 2..end])
  }

  /** Where the two tags of a name differ. */
  lemma TagsDiffer(name: string) returns (i: nat)
    ensures i < |Open(name)| && Open(name)[i] != Shut(name)[i]
  {
    var k := 0;
    while k < |name| && name[k] == '/'
      invariant k <= |name|
      invariant k > 0 ==> name[k - 1] == '/'
    {
      k := k + 1;
    }
    i := k + 1;
  }

  lemma TagsDoNotOverlap(xml: string, name: string, start: nat, end: nat)
    requires '<' !in name && start <= end
    requires OccursAt(xml, Open(name), start) && OccursAt(xml, Shut(name), end)
    ensures start + |name| + 2 <= end
  {
    var open, shut := Open(name), Shut(name);
    OccursChars(xml, open, start);
    OccursChars(xml, shut, end);
    var i := TagsDiffer(name);
    assert shut[0] == '<' && forall k :: 0 < k < |open| ==> open[k] != '<';
    assert open[i] == xml[start + i] && shut[i] == xml[end + i];
    var k := if start < end < start + |open| then end - start else 1;
    assert open[k] == xml[start + k] != '<';
  }

  /** The value in terms of where the two tags were found. */
  lemma RawValueIs(xml: string, name: string, start: nat, end: nat)
    requires '<' !in name && start <= |xml|
    requires start == Find(xml, Open(name), 0) && end == Find(xml, Shut(name), start)
    ensures start + |name| + 2 <= end <= |xml|
    ensures RawValue(xml, name) == Some(xml[start + |name| + 2..end])
  {
    TagsDoNotOverlap(xml, name, start, end);
  }

  /** The buffers for the tags take this many characters; longer tags are cut off. */
  const TAG_LIMIT := 49

  function Cut(tag: string): string {
    if |tag| <= TAG_LIMIT then tag else tag[..TAG_LIMIT]
  }

  /** Where the two searches end up: a tag is missing, or the closing one is behind the opening one.  Otherwise
      the original would copy a negative number of characters. */
  predicate Readable(xml: string, name: string) {
    var start := Find(xml, Cut(Open(name)), 0);
    start == -1 ||
    var end := Find(xml, Cut(Shut(name)), start);
    end == -1 || start + |name| + 2 <= end
  }

  /** What is read for a name, its tags cut off where they are too long. */
  function Read(xml: string, name: string): Option<string>
    requires Readable(xml, name)
  {
    var start := Find(xml, Cut(Open(name)), 0);
    if start == -1 then None
    else
      var end := Find(xml, Cut(Shut(name)), start);
      if end == -1 then None else Some(xml[start + |name| + 2..end])
  }

  /** For a name of at most 46 characters without opening bracket nothing is cut off and nothing can go wrong. */
  lemma PlainNamesAreReadable(xml: string, name: string)
    requires '<' !in name && |name| <= 46
    ensures Readable(xml, name) && Read(xml, name) == RawValue(xml, name)
  {
    var start := Find(xml, Open(name), 0);
    if start != -1 {
      var end := Find(xml, Shut(name), start);
      if end != -1 {
        TagsDoNotOverlap(xml, name, start, end);
      }
    }
  }

  /** With cut tags, too, the closing one cannot begin inside the opening one as long as that is whole. */
  lemma WholeOpenIsReadable(xml: string, name: string)
    requires '<' !in name && |name| <= 47
    ensures Readable(xml, name)
  {
    var start := Find(xml, Open(name), 0);
    if start != -1 {
      var end := Find(xml, Cut(Shut(name)), start);
      if end != -1 {
        CutTagsDoNotOverlap(xml, name, start, end);
      }
    }
  }

  lemma CutTagsDoNotOverlap(xml: string, name: string, start: nat, end: nat)
    requires '<' !in name && |name| <= 47 && start <= end
    requires OccursAt(xml, Open(name), start) && OccursAt(xml, Cut(Shut(name)), end)
    ensures start + |name| + 2 <= end
  {
    var open, shut := Open(name), Cut(Shut(name));
    OccursChars(xml, open, start);
    OccursChars(xml, shut, end);
    var i := TagsDiffer(name);
    assert shut[0] == '<' && forall k :: 0 < k < |open| ==> open[k] != '<';
    assert shut[i] == Shut(name)[i];
    assert open[i] == xml[start + i] && shut[i] == xml[end + i];
    var k := if start < end < start + |open| then end - start else 1;
    assert open[k] == xml[start + k] != '<';
  }

  /** A longer name is misread in the text that consists of its two cut tags. */
  lemma CutOpenIsUnreadable(name: string)
    requires |name| >= 48
    ensures !Readable(Cut(Open(name)) + Cut(Shut(name)), name)
  {
    var open, shut := Cut(Open(name)), Cut(Shut(name));
    var xml := open + shut;
    assert xml[0..TAG_LIMIT] == open && xml[TAG_LIMIT..TAG_LIMIT + TAG_LIMIT] == shut;
    assert OccursAt(xml, open, 0) && OccursAt(xml, shut, TAG_LIMIT);
    FindIs(xml, open, 0, 0);
    assert Find(xml, shut, 0) <= TAG_LIMIT < |name| + 2;
  }

  /** For names without opening bracket the length never comes out negative exactly up to 47 characters. */
  lemma ReadableExactly(name: string)
    requires '<' !in name
    ensures (forall xml :: Readable(xml, name)) <==> |name| <= 47
  {
    if |name| <= 47 {
      forall xml
        ensures Readable(xml, name)
      {
        WholeOpenIsReadable(xml, name);
      }
    } else {
      CutOpenIsUnreadable(name);
    }
  }

  /** What fits in when at most `ilen` characters are asked for; 0 means no limit. */
  function Limited(s: string, ilen: nat): string {
    if |s| <= ilen || ilen == 0 then s else s[..ilen]
  }

  method CopyValue(raw: string, value: array<char>, ilen: nat)
    requires NUL !in raw
    requires value.Length > (if ilen == 0 then |raw| else ilen)
    modifies value
    ensures Holds(value, Limited(raw, ilen))
  {
    PutAt(value, 0, if |raw| <= ilen || ilen == 0 then raw else raw[..ilen]);
  }

  /** The two searches: where the value stands and how long it is. */
  method FindField(xml: string, fieldname: string) returns (ok: bool, from: nat, valueLen: nat)
    requires Readable(xml, fieldname)
    ensures ok <==> Read(xml, fieldname).Some?
    ensures ok ==> from + valueLen <= |xml| && xml[from..from + valueLen] == Read(xml, fieldname).value
  {
    from, valueLen := 0, 0;
    var start, end := Find(xml, Cut(Open(fieldname)), 0), -1;
    if start != -1 {
      end := Find(xml, Cut(Shut(fieldname)), start);
    }
    if start == -1 || end == -1 {
      return false, from, valueLen;
    }
    from, valueLen := start + |fieldname| + 2, end - start - |fieldname| - 2;
    ok := true;
  }

  method GetXMLBuffer(xml: string, fieldname: string, value: array<char>, ilen: nat)
    returns (ok: bool, ghost v: string)
    requires Readable(xml, fieldname) && NUL !in xml
    requires value.Length > (if ilen == 0 then |xml| else ilen)
    modifies value
    ensures ok <==> Read(xml, fieldname).Some?
    ensures ok ==> Holds(value, v) && v == Trim(Limited(Read(xml, fieldname).value, ilen), ' ')
    ensures ok ==> var raw := Read(xml, fieldname).value; BareOf(v, if 0 < ilen < |raw| then raw[..ilen] else raw, ' ')
    ensures !ok && ilen > 0 ==> forall i :: 0 <= i <= ilen ==> value[i] == NUL
    ensures !ok && ilen == 0 ==> value[..] == old(value[..])
  {
    v := [];
    if ilen > 0 {
      forall i | 0 <= i <= ilen {
        value[i] := NUL;
      }
    }
    var from, valueLen;
    ok, from, valueLen := FindField(xml, fieldname);
    if !ok {
      return;
    }
    var raw := xml[from..from + valueLen];
    v := Limited(raw, ilen);
    CopyValue(raw, value, ilen);
    DeleteLRChar(value, ' ', v);
    TrimIs(v, ' ');
    v := Trim(v, ' ');
  }

  // ---------- documents ----------

  /** A field as it is printed: some text, then the value between its tags. */
  datatype Field = Field(gap: string, name: string, value: string)

  predicate NoBrackets(s: string) {
    '<' !in s && '>' !in s
  }

  predicate WellFormed(f: Field) {
    '<' !in f.gap && NoBrackets(f.name) && '<' !in f.value
  }

  function PrintField(f: Field): string {
    f.gap + (Open(f.name) + (f.value + Shut(f.name)))
  }

  /** Where the closing tag of a printed field stands. */
  function ShutAt(f: Field): nat {
    |f.gap| + |f.name| + 2 + |f.value|
  }

  predicate AllWellFormed(doc: seq<Field>) {
    forall i :: 0 <= i < |doc| ==> WellFormed(doc[i])
  }

  function Print(doc: seq<Field>, tail: string): string {
    if doc == [] then tail else PrintField(doc[0]) + Print(doc[1..], tail)
  }

  function Lookup(doc: seq<Field>, name: string): Option<string> {
    if doc == [] then None
    else if doc[0].name == name then Some(doc[0].value)
    else Lookup(doc[1..], name)
  }

  function NamesOf(doc: seq<Field>): (names: seq<string>)
    ensures |names| == |doc|
  {
    if doc == [] then [] else [doc[0].name] + NamesOf(doc[1..])
  }

  // ---------- where tags are ----------

  /** Where a tag is not, because there is no angle bracket. */
  lemma NoBracketNoTag(s: string, t: string, i: nat)
    requires i < |s| && s[i] != '<'
    ensures !OccursAt(s, Open(t), i)
  {
    if i + |Open(t)| <= |s| {
      assert s[i..i + |Open(t)|][0] == s[i];
    }
  }

  /** An opening tag is met by an opening tag of the same name only. */
  lemma OpenMeetsOpen(t: string, n: string, rest: string)
    requires NoBrackets(t) && NoBrackets(n)
    ensures Open(t) <= Open(n) + rest <==> t == n
  {
    var s, open := Open(n) + rest, Open(t);
    assert s[|n| + 1] == '>' && forall i :: 0 < i <= |n| ==> s[i] == n[i - 1] != '>';
    assert open[|t| + 1] == '>' && forall i :: 0 < i <= |t| ==> open[i] == t[i - 1] != '>';
    if open <= s {
      assert forall i :: 0 <= i < |open| ==> open[i] == s[i];
      assert |t| == |n|;
      assert forall i :: 0 <= i < |t| ==> t[i] == open[i + 1] == s[i + 1] == n[i];
    }
  }

  lemma OccursIffPrefix(s: string, pat: string, i: nat, rest: string)
    requires i <= |s| && s[i..] == rest
    ensures OccursAt(s, pat, i) <==> pat <= rest
  {
    if i + |pat| <= |s| {
      assert rest[..|pat|] == s[i..i + |pat|];
    }
  }

  /** In a printed field followed by anything, a tag is seen at the field's own two tags only. */
  lemma TagsInField(f: Field, rest: string, t: string, i: nat)
    requires WellFormed(f) && NoBrackets(t) && i < |PrintField(f)|
    ensures OccursAt(PrintField(f) + rest, Open(t), i) <==>
            (i == |f.gap| && t == f.name) || (i == ShutAt(f) && t == "/" + f.name)
  {
    var s := PrintField(f) + rest;
    if i == |f.gap| {
      var behind := f.value + Shut(f.name) + rest;
      OpenMeetsOpen(t, f.name, behind);
      OccursIffPrefix(s, Open(t), i, Open(f.name) + behind);
    } else if i == ShutAt(f) {
      ShutIsOpen(f.name);
      OpenMeetsOpen(t, "/" + f.name, rest);
      OccursIffPrefix(s, Open(t), i, Shut(f.name) + rest);
    } else {
      NoBracketBetween(f, i);
      assert s[i] == PrintField(f)[i];
      NoBracketNoTag(s, t, i);
    }
  }

  lemma NoBracketBetween(f: Field, i: nat)
    requires WellFormed(f) && i < |PrintField(f)| && i != |f.gap| && i != ShutAt(f)
    ensures PrintField(f)[i] != '<'
  {
    var mid := |f.gap| + |f.name| + 2;
    var c := PrintField(f)[i];
    if i < |f.gap| {
      assert c == f.gap[i];
    } else if i < mid {
      assert c == Open(f.name)[i - |f.gap|];
    } else if i < ShutAt(f) {
      assert c == f.value[i - mid];
    } else {
      assert c == Shut(f.name)[i - ShutAt(f)];
    }
  }

  /** A tag that is neither of the field's own two is looked for behind the field. */
  lemma OtherTag(f: Field, rest: string, t: string, from: nat, r: int)
    requires WellFormed(f) && NoBrackets(t) && from < |PrintField(f)|
    requires |f.gap| < from || t != f.name
    requires ShutAt(f) < from || t != "/" + f.name
    requires r == Find(rest, Open(t), 0)
    ensures Find(PrintField(f) + rest, Open(t), from) == if r == -1 then -1 else |PrintField(f)| + r
  {
    var s := PrintField(f) + rest;
    forall i | from <= i < |PrintField(f)|
      ensures !OccursAt(s, Open(t), i)
    {
      TagsInField(f, rest, t, i);
    }
    FindSkips(s, Open(t), from, |PrintField(f)|);
    FindBehind(PrintField(f), rest, Open(t), 0, r);
  }

  /** The field's own tag is found where it is. */
  lemma OwnTag(f: Field, rest: string, t: string, from: nat, at: nat)
    requires WellFormed(f) && from <= at
    requires (from == 0 && at == |f.gap| && t == f.name) || (from <= at == ShutAt(f) && t == "/" + f.name)
    ensures Find(PrintField(f) + rest, Open(t), from) == at
  {
    var s := PrintField(f) + rest;
    forall i | from <= i <= at
      ensures OccursAt(s, Open(t), i) <==> i == at
    {
      TagsInField(f, rest, t, i);
    }
    FindIs(s, Open(t), from, at);
  }

  // ---------- reading fields back ----------

  lemma SkipField(f: Field, rest: string, q: string)
    requires WellFormed(f) && NoBrackets(q) && q != f.name && q != "/" + f.name
    ensures RawValue(PrintField(f) + rest, q) == RawValue(rest, q)
  {
    var start := Find(rest, Open(q), 0);
    OtherTag(f, rest, q, 0, start);
    ReadBehind(PrintField(f), rest, q, start);
  }

  lemma ReadBehind(pre: string, rest: string, q: string, start: int)
    requires '<' !in q && start == Find(rest, Open(q), 0)
    requires Find(pre + rest, Open(q), 0) == if start == -1 then -1 else |pre| + start
    ensures RawValue(pre + rest, q) == RawValue(rest, q)
  {
    if start != -1 {
      var end := Find(rest, Shut(q), start);
      FindBehind(pre, rest, Shut(q), start, end);
      if start + |q| + 2 <= end {
        DropPrefixSlice(pre, rest, start + |q| + 2, end);
      }
      SameCut(pre + rest, rest, |pre|, q, start, end);
    }
  }

  lemma SameCut(s: string, rest: string, d: nat, q: string, start: nat, end: int)
    requires '<' !in q && start <= |rest| && |s| == d + |rest|
    requires start == Find(rest, Open(q), 0) && end == Find(rest, Shut(q), start)
    requires Find(s, Open(q), 0) == d + start
    requires Find(s, Shut(q), d + start) == if end == -1 then -1 else d + end
    requires start + |q| + 2 <= end ==> s[d + (start + |q| + 2)..d + end] == rest[start + |q| + 2..end]
    ensures RawValue(s, q) == RawValue(rest, q)
  {
    if end != -1 {
      RawValueIs(rest, q, start, end);
      RawValueIs(s, q, d + start, d + end);
    }
  }

  lemma TakeField(f: Field, rest: string)
    requires WellFormed(f)
    ensures RawValue(PrintField(f) + rest, f.name) == Some(f.value)
  {
    OwnTag(f, rest, f.name, 0, |f.gap|);
    ShutIsOpen(f.name);
    OwnTag(f, rest, "/" + f.name, |f.gap|, ShutAt(f));
    ValueInField(f, rest);
    RawValueIs(PrintField(f) + rest, f.name, |f.gap|, ShutAt(f));
  }

  /** The same in characters: what stands between the tags of the name is read, whatever comes behind. */
  lemma ReadsTagged(xml: string, pre: string, name: string, value: string, post: string)
    requires '<' !in pre && NoBrackets(name) && |name| <= 46 && '<' !in value
    requires xml == pre + (("<" + name + ">") + (value + ("</" + name + ">"))) + post
    ensures Readable(xml, name) && Read(xml, name) == Some(value)
  {
    assert Open(name) == "<" + name + ">" && Shut(name) == "</" + name + ">";
    TakeField(Field(pre, name, value), post);
    PlainNamesAreReadable(xml, name);
  }

  lemma ValueInField(f: Field, rest: string)
    ensures (PrintField(f) + rest)[|f.gap| + |f.name| + 2..ShutAt(f)] == f.value
  {
  }

  /** A name with a slash in front meets the closing tag of another field first; what is read then is the text
      from there to the next tag that would close it. */
  lemma StrayClose(f: Field, rest: string, q: string, end: int)
    requires WellFormed(f) && q == "/" + f.name && end == Find(rest, Shut(q), 0)
    ensures RawValue(PrintField(f) + rest, q) == if end == -1 then None else Some(rest[..end])
  {
    OwnTag(f, rest, q, 0, ShutAt(f));
    StrayEnd(f, rest, q, end);
    CutBehind(PrintField(f), rest, q, ShutAt(f), end);
  }

  lemma CutBehind(pre: string, rest: string, q: string, at: nat, end: int)
    requires '<' !in q && |pre| == at + |q| + 2 && -1 <= end <= |rest|
    requires Find(pre + rest, Open(q), 0) == at
    requires Find(pre + rest, Shut(q), at) == if end == -1 then -1 else |pre| + end
    ensures RawValue(pre + rest, q) == if end == -1 then None else Some(rest[..end])
  {
    if end != -1 {
      DropPrefixSlice(pre, rest, 0, end);
      RawValueIs(pre + rest, q, at, |pre| + end);
    }
  }

  lemma StrayEnd(f: Field, rest: string, q: string, end: int)
    requires WellFormed(f) && q == "/" + f.name && end == Find(rest, Shut(q), 0)
    ensures Find(PrintField(f) + rest, Shut(q), ShutAt(f)) == if end == -1 then -1 else |PrintField(f)| + end
  {
    ShutIsOpen(q);
    assert |"/" + q| > |"/" + f.name| && |q| > |f.name|;
    OtherTag(f, rest, "/" + q, ShutAt(f), end);
  }

  /** Some field with one of these names has `t` for one of its tags. */
  predicate HasTag(names: seq<string>, t: string) {
    names != [] && (names[0] == t || "/" + names[0] == t || HasTag(names[1..], t))
  }

  lemma {:induction false} TagIffNamed(doc: seq<Field>, tail: string, t: string)
    requires AllWellFormed(doc) && '<' !in tail && NoBrackets(t)
    ensures Find(Print(doc, tail), Open(t), 0) != -1 <==> HasTag(NamesOf(doc), t)
  {
    if doc == [] {
      NoTagInTail(tail, t);
    } else {
      var f, rest := doc[0], Print(doc[1..], tail);
      TagIffNamed(doc[1..], tail, t);
      assert NamesOf(doc)[1..] == NamesOf(doc[1..]);
      if t == f.name {
        OwnTag(f, rest, t, 0, |f.gap|);
      } else if t == "/" + f.name {
        OwnTag(f, rest, t, 0, ShutAt(f));
      } else {
        OtherTag(f, rest, t, 0, Find(rest, Open(t), 0));
      }
    }
  }

  lemma NoTagInTail(tail: string, t: string)
    requires '<' !in tail
    ensures Find(tail, Open(t), 0) == -1
  {
    forall i | 0 <= i
      ensures !OccursAt(tail, Open(t), i)
    {
      if i < |tail| {
        NoBracketNoTag(tail, t, i);
      }
    }
    FindIs(tail, Open(t), 0, -1);
  }

  /** Asking for `q` meets the closing tag of another field before any field `q`, and further on there is a
      tag that closes `q`.  Only a `q` with a slash in front can do so. */
  predicate Misleading(names: seq<string>, q: string) {
    && names != []
    && names[0] != q
    && if "/" + names[0] == q then HasTag(names[1..], "/" + q) else Misleading(names[1..], q)
  }

  lemma {:induction false} NoField(doc: seq<Field>, q: string)
    requires !HasTag(NamesOf(doc), "/" + q)
    ensures Lookup(doc, q) == None
  {
    if doc != [] {
      assert NamesOf(doc)[1..] == NamesOf(doc[1..]);
      NoField(doc[1..], q);
    }
  }

  /** Reading back what was printed: the first field of the name asked for, and nothing if there is none. */
  lemma {:induction false} ReadBack(doc: seq<Field>, tail: string, q: string)
    requires AllWellFormed(doc) && '<' !in tail && NoBrackets(q) && !Misleading(NamesOf(doc), q)
    ensures RawValue(Print(doc, tail), q) == Lookup(doc, q)
  {
    if doc == [] {
      NoTagInTail(tail, q);
    } else {
      var f, rest := doc[0], Print(doc[1..], tail);
      assert NamesOf(doc)[1..] == NamesOf(doc[1..]);
      if f.name == q {
        TakeField(f, rest);
      } else if "/" + f.name == q {
        TagIffNamed(doc[1..], tail, "/" + q);
        ShutIsOpen(q);
        StrayClose(f, rest, q, -1);
        NoField(doc[1..], q);
      } else {
        SkipField(f, rest, q);
        ReadBack(doc[1..], tail, q);
      }
    }
  }

  /** Fields without gaps, all with the same one-letter value. */
  function Sample(names: seq<string>): (doc: seq<Field>)
    ensures NamesOf(doc) == names
    ensures |doc| == |names| && forall i :: 0 <= i < |doc| ==> doc[i] == Field("", names[i], "v")
  {
    if names == [] then []
    else
      var doc := [Field("", names[0], "v")] + Sample(names[1..]);
      assert doc[1..] == Sample(names[1..]);
      doc
  }

  lemma {:induction false} SampleMisread(names: seq<string>, q: string)
    requires (forall i :: 0 <= i < |names| ==> NoBrackets(names[i])) && NoBrackets(q) && Misleading(names, q)
    ensures RawValue(Print(Sample(names), []), q) != Lookup(Sample(names), q)
    ensures Lookup(Sample(names), q) == None || Lookup(Sample(names), q) == Some("v")
  {
    var doc := Sample(names);
    var f, rest := doc[0], Print(doc[1..], []);
    assert doc[1..] == Sample(names[1..]);
    if "/" + f.name == q {
      var end := Find(rest, Shut(q), 0);
      TagIffNamed(doc[1..], [], "/" + q);
      ShutIsOpen(q);
      StrayClose(f, rest, q, end);
      assert rest[0] == '<';
      LookupInSample(doc[1..], q);
    } else {
      SkipField(f, rest, q);
      SampleMisread(names[1..], q);
    }
  }

  lemma {:induction false} LookupInSample(doc: seq<Field>, q: string)
    requires forall i :: 0 <= i < |doc| ==> doc[i].value == "v"
    ensures Lookup(doc, q) == None || Lookup(doc, q) == Some("v")
  {
    if doc != [] {
      LookupInSample(doc[1..], q);
    }
  }

  /** Whatever the values and the gaps, asking a text with fields of these names for `q` gives the first value
      of that name, exactly when the names are not misleading. */
  lemma ReadsBackExactly(names: seq<string>, q: string)
    requires (forall i :: 0 <= i < |names| ==> NoBrackets(names[i])) && NoBrackets(q)
    ensures (forall doc, tail :: NamesOf(doc) == names && AllWellFormed(doc) && '<' !in tail ==>
               RawValue(Print(doc, tail), q) == Lookup(doc, q))
            <==> !Misleading(names, q)
  {
    if Misleading(names, q) {
      SampleMisread(names, q);
      var doc, tail := Sample(names), "";
      assert NamesOf(doc) == names && AllWellFormed(doc) && RawValue(Print(doc, tail), q) != Lookup(doc, q);
    } else {
      forall doc, tail | NamesOf(doc) == names && AllWellFormed(doc) && '<' !in tail
        ensures RawValue(Print(doc, tail), q) == Lookup(doc, q)
      {
        ReadBack(doc, tail, q);
      }
    }
  }

  /** A name without a slash in front is never misleading. */
  lemma {:induction false} PlainNamesAreSafe(names: seq<string>, q: string)
    requires q == [] || q[0] != '/'
    ensures !Misleading(names, q)
  {
    if names != [] {
      PlainNamesAreSafe(names[1..], q);
    }
  }

  /** Two fields named "a" and "/a": asking for the second meets the closing tag of the first. */
  lemma SlashMisleads(names: seq<string>, q: string)
    requires names == ["a", "/a"] && q == "/a"
    ensures Misleading(names, q)
    ensures RawValue(Print(Sample(names), []), q) != Some("v") == Lookup(Sample(names), q)
  {
    assert names[1..] == [q] && "/" + names[0] == q && "/" + q == "/" + names[1..][0];
    SampleMisread(names, q);
    var doc := Sample(names);
    assert doc[0].name != q && doc[1..][0] == doc[1] && doc[1].name == q;
  }
}
