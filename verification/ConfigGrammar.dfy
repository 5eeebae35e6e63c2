/** What an INI text means and what is written (platform/config_ini.c), as functions on strings, and exactly
    when writing and reading back is the identity. Strings are C strings: they hold no NUL. */
module ConfigGrammar {
  import opened Wrappers

  const KEY_MAX: nat := 128
  const VALUE_MAX: nat := 1024
  const LINE_MAX: nat := KEY_MAX + VALUE_MAX + 4

  datatype Entry = Entry(key: string, value: string)

  /** isspace in the C locale. */
  predicate IsSpace(c: char) {
    c == ' ' || c == '\t' || c == '\n' || c == '\U{0B}' || c == '\U{0C}' || c == '\r'
  }

  function TrimLeft(s: string): (t: string)
    ensures |t| <= |s|
  {
    if |s| > 0 && IsSpace(s[0]) then TrimLeft(s[1..]) else s
  }

  function TrimRight(s: string): (t: string)
    ensures |t| <= |s|
  {
    if |s| > 0 && IsSpace(s[|s| - 1]) then TrimRight(s[..|s| - 1]) else s
  }

  function Trimmed(s: string): (t: string)
    ensures |t| <= |s|
  {
    TrimRight(TrimLeft(s))
  }

  /** Neither starts nor ends with white space. */
  predicate Tight(s: string) {
    |s| > 0 ==> !IsSpace(s[0]) && !IsSpace(s[|s| - 1])
  }

  lemma TightStays(s: string)
    requires Tight(s)
    ensures Trimmed(s) == s
  {}

  /** The first place of a character. */
  function Index(s: string, c: char): (r: Option<nat>)
    ensures r.Some? ==> r.value < |s| && s[r.value] == c && forall i :: 0 <= i < r.value ==> s[i] != c
    ensures r.None? ==> c !in s
  {
    if |s| == 0 then None
    else if s[0] == c then Some(0)
    else
      match Index(s[1..], c)
      case None => None
      case Some(k) => Some(k + 1)
  }

  lemma {:induction false} IndexAfter(a: string, c: char, b: string)
    requires c !in a
    ensures Index(a + [c] + b, c) == Some(|a|)
  {
    if |a| > 0 {
      IndexAfter(a[1..], c, b);
      assert (a + [c] + b)[1..] == a[1..] + [c] + b;
    }
  }

  // ---- reading -----------------------------------------------------------------------------

  datatype Parse = Refused | Read(section: string, entries: seq<Entry>)

  function Flat(section: string, leaf: string): string {
    if section == "" then leaf else section + "." + leaf
  }

  function ReadEntry(p: Parse, key: string, value: string, max: nat): Parse
    requires p.Read?
  {
    if |p.entries| >= max || key == "" || |Flat(p.section, key)| >= KEY_MAX || |value| >= VALUE_MAX then Refused
    else p.(entries := p.entries + [Entry(Flat(p.section, key), value)])
  }

  function ReadHeader(p: Parse, t: string): Parse
    requires p.Read? && |t| > 0 && t[0] == '['
  {
    match Index(t, ']')
    case None => p
    case Some(k) =>
      var section := Trimmed(t[1..k]);
      if |section| >= KEY_MAX then Refused else p.(section := section)
  }

  function ReadTrimmed(p: Parse, t: string, max: nat): Parse
    requires p.Read?
  {
    if t == "" || t[0] == '#' || t[0] == ';' then p
    else if t[0] == '[' then ReadHeader(p, t)
    else
      match Index(t, '=')
      case None => p
      case Some(e) => ReadEntry(p, Trimmed(t[..e]), Trimmed(t[e + 1..]), max)
  }

  function ReadLine(p: Parse, line: string, max: nat): Parse
    requires p.Read?
  {
    if |line| >= LINE_MAX then Refused else ReadTrimmed(p, Trimmed(line), max)
  }

  function LineEnd(text: string): (n: nat)
    ensures n <= |text| && '\n' !in text[..n] && (n < |text| ==> text[n] == '\n')
  {
    match Index(text, '\n') case None => |text| case Some(k) => k
  }

  function Rest(text: string, n: nat): string
    requires n <= |text|
  {
    if n < |text| then text[n + 1..] else ""
  }

  function ReadText(p: Parse, text: string, max: nat): Parse
    decreases |text|
  {
    if p.Refused? || text == "" then p
    else
      var n := LineEnd(text);
      ReadText(ReadLine(p, text[..n], max), Rest(text, n), max)
  }

  // ---- writing -----------------------------------------------------------------------------

  /** The guard every key and value must pass before anything is written. */
  predicate RoundTrips(text: string, isKey: bool) {
    && Tight(text) && '\n' !in text && '\r' !in text
    && (isKey ==>
          && |text| > 0 && '=' !in text && text[0] != '[' && text[0] != '#' && text[0] != ';'
          && (Index(text, '.').Some? ==>
                var dot := Index(text, '.').value;
                0 < dot < |text| - 1 && !IsSpace(text[dot - 1]) && !IsSpace(text[dot + 1])))
  }

  /** An entry that fits its fixed-size arrays and passes the guard. */
  predicate Writable(e: Entry) {
    |e.key| < KEY_MAX && |e.value| < VALUE_MAX && RoundTrips(e.key, true) && RoundTrips(e.value, false)
  }

  predicate AllWritable(entries: seq<Entry>) {
    forall i :: 0 <= i < |entries| ==> Writable(entries[i])
  }

  predicate Sectioned(e: Entry) {
    '.' in e.key
  }

  function SectionOf(e: Entry): string {
    match Index(e.key, '.') case None => "" case Some(dot) => e.key[..dot]
  }

  function LeafOf(e: Entry): string {
    match Index(e.key, '.') case None => e.key case Some(dot) => e.key[dot + 1..]
  }

  lemma SectionAndLeaf(e: Entry)
    requires Writable(e)
    ensures Flat(SectionOf(e), LeafOf(e)) == e.key
    ensures Sectioned(e) <==> SectionOf(e) != ""
    ensures LeafOf(e) != "" && Tight(LeafOf(e)) && Tight(SectionOf(e)) && '=' !in LeafOf(e)
    ensures '\n' !in LeafOf(e) && '\n' !in SectionOf(e) && (Sectioned(e) ==> SectionOf(e)[0] != '[')
  {
    match Index(e.key, '.') {
      case None =>
      case Some(dot) =>
        assert e.key == e.key[..dot] + "." + e.key[dot + 1..];
        assert SectionOf(e)[0] == e.key[0];
    }
  }

  function EntryLine(e: Entry): string {
    LeafOf(e) + "=" + e.value
  }

  function HeaderLine(section: string): string {
    ['['] + section + [']']
  }

  /** Root keys, in order. */
  function RootText(entries: seq<Entry>): string {
    if |entries| == 0 then ""
    else (if Sectioned(entries[0]) then "" else EntryLine(entries[0]) + "\n") + RootText(entries[1..])
  }

  /** Sectioned keys, in order, with a header, after a blank line unless it comes first, at each change. */
  function SectionText(entries: seq<Entry>, section: string, first: bool): string {
    if |entries| == 0 then ""
    else if !Sectioned(entries[0]) then SectionText(entries[1..], section, first)
    else
      var s := SectionOf(entries[0]);
      (if s == section then "" else (if first then "" else "\n") + HeaderLine(s) + "\n")
      + EntryLine(entries[0]) + "\n" + SectionText(entries[1..], s, false)
  }

  function Written(entries: seq<Entry>): string {
    RootText(entries) + SectionText(entries, "", RootText(entries) == "")
  }

  function Roots(entries: seq<Entry>): seq<Entry> {
    if |entries| == 0 then []
    else (if Sectioned(entries[0]) then [] else [entries[0]]) + Roots(entries[1..])
  }

  function InSections(entries: seq<Entry>): seq<Entry> {
    if |entries| == 0 then []
    else (if Sectioned(entries[0]) then [entries[0]] else []) + InSections(entries[1..])
  }

  // ---- reading back what was written ---------------------------------------------------------

  lemma ReadOneLine(p: Parse, line: string, rest: string, max: nat)
    requires p.Read? && '\n' !in line
    ensures ReadText(p, line + "\n" + rest, max) == ReadText(ReadLine(p, line, max), rest, max)
  {
    hide ReadLine;
    var text := line + "\n" + rest;
    IndexAfter(line, '\n', rest);
    assert text == line + ['\n'] + rest;
    assert text[..|line|] == line && text[|line| + 1..] == rest;
  }

  lemma ReadNothingMore(p: Parse, text: string, max: nat)
    requires p.Refused?
    ensures ReadText(p, text, max) == p
  {}

  /** The section a header line leaves: it ends at the first bracket. */
  function HeaderSection(s: string): (t: string)
    ensures |t| <= |s|
  {
    match Index(s, ']') case None => Trimmed(s) case Some(k) => Trimmed(s[..k])
  }

  lemma HeaderCloses(s: string, k: nat)
    requires k <= |s| && (forall i :: 0 <= i < k ==> s[i] != ']') && (k == |s| || s[k] == ']')
    ensures Index(HeaderLine(s), ']') == Some(k + 1) && HeaderLine(s)[1..k + 1] == s[..k]
  {
    hide Index, HeaderLine;
    var line := HeaderLine(s);
    Bracketed(s);
    forall i | 0 <= i < k + 1 ensures line[i] != ']' {
      if i > 0 {
        assert s[i - 1] != ']';
      }
    }
    IndexIs(line, ']', k + 1);
    assert line[1..k + 1] == s[..k];
  }

  lemma Bracketed(s: string)
    ensures var line := HeaderLine(s);
            && |line| == |s| + 2 && line[0] == '[' && line[|s| + 1] == ']'
            && forall i :: 0 < i <= |s| ==> line[i] == s[i - 1]
  {}

  lemma IndexIs(t: string, c: char, k: nat)
    requires k < |t| && t[k] == c && (forall i :: 0 <= i < k ==> t[i] != c)
    ensures Index(t, c) == Some(k)
  {
    hide Index;
  }

  lemma HeaderReads(p: Parse, s: string, max: nat)
    requires p.Read? && |s| < KEY_MAX
    ensures ReadLine(p, HeaderLine(s), max) == p.(section := HeaderSection(s))
  {
    hide Index, TrimLeft, TrimRight;
    var line := HeaderLine(s);
    TightStays(line);
    HeaderCloses(s, match Index(s, ']') case None => |s| case Some(k) => k);
    assert s[..|s|] == s;
  }

  /** A leaf the parser takes for a key. */
  predicate GoodLeaf(e: Entry) {
    |LeafOf(e)| > 0 && LeafOf(e)[0] != '[' && LeafOf(e)[0] != '#' && LeafOf(e)[0] != ';'
  }

  lemma EntryLineTight(e: Entry)
    requires Writable(e)
    ensures Trimmed(EntryLine(e)) == EntryLine(e) && '\n' !in EntryLine(e) && |EntryLine(e)| < LINE_MAX
    ensures EntryLine(e)[0] == LeafOf(e)[0]
  {
    SectionAndLeaf(e);
    var line := EntryLine(e);
    assert line[|line| - 1] == if e.value == "" then '=' else e.value[|e.value| - 1];
    TightStays(line);
  }

  lemma EntryReads(p: Parse, e: Entry, max: nat)
    requires p.Read? && Writable(e) && GoodLeaf(e)
    ensures ReadLine(p, EntryLine(e), max) == ReadEntry(p, LeafOf(e), e.value, max)
  {
    hide Writable, RoundTrips;
    var leaf := LeafOf(e);
    var line := EntryLine(e);
    SectionAndLeaf(e);
    EntryLineTight(e);
    ValueTight(e);
    assert line == leaf + ['='] + e.value;
    IndexAfter(leaf, '=', e.value);
    assert line[..|leaf|] == leaf && line[|leaf| + 1..] == e.value;
    TightStays(leaf);
    TightStays(e.value);
  }

  lemma ValueTight(e: Entry)
    requires Writable(e)
    ensures Tight(e.value) && |e.value| < VALUE_MAX && |e.key| < KEY_MAX
  {}

  lemma BadLeafReads(p: Parse, e: Entry, max: nat)
    requires p.Read? && Writable(e) && !GoodLeaf(e)
    ensures var r := ReadLine(p, EntryLine(e), max); r.Refused? || r.entries == p.entries
  {
    hide Writable, RoundTrips;
    SectionAndLeaf(e);
    EntryLineTight(e);
  }

  lemma RootIsGood(e: Entry)
    requires Writable(e) && !Sectioned(e)
    ensures GoodLeaf(e) && LeafOf(e) == e.key
  {}

  lemma RootEntryReads(e: Entry, p: Parse, rest: string, max: nat)
    requires Writable(e) && !Sectioned(e) && p.Read? && p.section == "" && |p.entries| < max
    ensures ReadText(p, EntryLine(e) + "\n" + rest, max) == ReadText(p.(entries := p.entries + [e]), rest, max)
  {
    hide Writable, ReadText, ReadLine, LeafOf, EntryLine, Sectioned;
    RootIsGood(e);
    EntryReads(p, e, max);
    ValueTight(e);
    EntryLineTight(e);
    KeyNotEmpty(e);
    ReadOneLine(p, EntryLine(e), rest, max);
  }

  lemma RootTextSplit(entries: seq<Entry>, rest: string)
    requires |entries| > 0
    ensures RootText(entries) + rest ==
            if Sectioned(entries[0]) then RootText(entries[1..]) + rest
            else EntryLine(entries[0]) + "\n" + (RootText(entries[1..]) + rest)
  {
    hide EntryLine, Sectioned;
  }

  lemma {:induction false} RootReads(entries: seq<Entry>, p: Parse, rest: string, max: nat)
    requires AllWritable(entries) && p.Read? && p.section == "" && |p.entries| + |Roots(entries)| <= max
    ensures ReadText(p, RootText(entries) + rest, max) ==
            ReadText(p.(entries := p.entries + Roots(entries)), rest, max)
  {
    hide Writable, ReadText, EntryLine, Sectioned, RootText;
    if |entries| == 0 {
      assert RootText(entries) + rest == rest by { NoRoots(rest); }
      assert p.entries + Roots(entries) == p.entries;
    } else {
      var e, more := entries[0], entries[1..];
      RootTextSplit(entries, rest);
      if Sectioned(e) {
        assert Roots(entries) == Roots(more);
        RootReads(more, p, rest, max);
      } else {
        RootEntryReads(e, p, RootText(more) + rest, max);
        RootReads(more, p.(entries := p.entries + [e]), rest, max);
        assert p.entries + [e] + Roots(more) == p.entries + Roots(entries);
      }
    }
  }

  lemma NoRoots(rest: string)
    ensures RootText([]) + rest == rest
  {}

  lemma KeyNotEmpty(e: Entry)
    requires Writable(e)
    ensures e.key != ""
  {}

  /** How an entry with a good leaf comes back. */
  function Reloaded(e: Entry): Entry {
    Entry(Flat(HeaderSection(SectionOf(e)), LeafOf(e)), e.value)
  }

  function AllReloaded(entries: seq<Entry>): seq<Entry> {
    if |entries| == 0 then []
    else (if Sectioned(entries[0]) then [Reloaded(entries[0])] else []) + AllReloaded(entries[1..])
  }

  /** The lines before an entry, if its section differs from the one before. */
  function Heading(s: string, section: string, first: bool): string {
    if s == section then "" else (if first then "" else "\n") + HeaderLine(s) + "\n"
  }

  lemma HeadingReads(p: Parse, s: string, section: string, first: bool, rest: string, max: nat)
    requires p.Read? && '\n' !in s && |s| < KEY_MAX
    requires s == section ==> p.section == HeaderSection(s)
    ensures ReadText(p, Heading(s, section, first) + rest, max) ==
            ReadText(p.(section := HeaderSection(s)), rest, max)
  {
    hide ReadText, ReadLine, HeaderSection;
    if s == section {
      assert Heading(s, section, first) + rest == rest;
    } else {
      var after := HeaderLine(s) + "\n" + rest;
      if first {
        assert Heading(s, section, first) + rest == after;
      } else {
        assert Heading(s, section, first) + rest == "" + "\n" + after;
        ReadOneLine(p, "", after, max);
        BlankReads(p, max);
      }
      ReadOneLine(p, HeaderLine(s), rest, max);
      HeaderReads(p, s, max);
    }
  }

  lemma BlankReads(p: Parse, max: nat)
    requires p.Read?
    ensures ReadLine(p, "", max) == p
  {}

  lemma SectionTextSplit(entries: seq<Entry>, section: string, first: bool)
    requires |entries| > 0 && Sectioned(entries[0])
    ensures var s := SectionOf(entries[0]);
            SectionText(entries, section, first) ==
            Heading(s, section, first) + (EntryLine(entries[0]) + "\n" + SectionText(entries[1..], s, false))
  {
    var s := SectionOf(entries[0]);
    var tail := SectionText(entries[1..], s, false);
    assert Heading(s, section, first) + EntryLine(entries[0]) + "\n" + tail ==
           Heading(s, section, first) + (EntryLine(entries[0]) + "\n" + tail);
  }

  predicate GoodLeaves(entries: seq<Entry>) {
    forall i :: 0 <= i < |entries| && Sectioned(entries[i]) ==> GoodLeaf(entries[i])
  }

  lemma ReloadedFits(e: Entry, p: Parse, max: nat)
    requires Writable(e) && GoodLeaf(e) && p.Read? && |p.entries| < max
    requires p.section == HeaderSection(SectionOf(e))
    ensures ReadLine(p, EntryLine(e), max) == p.(entries := p.entries + [Reloaded(e)])
  {
    hide ReadLine, HeaderSection, Writable;
    SectionAndLeaf(e);
    EntryReads(p, e, max);
    ValueTight(e);
  }

  /** With good leaves every sectioned entry comes back, under the section its header left. */
  lemma {:induction false} SectionReads(entries: seq<Entry>, section: string, first: bool, p: Parse, max: nat)
    requires AllWritable(entries) && GoodLeaves(entries) && p.Read? && p.section == HeaderSection(section)
    requires |p.entries| + |AllReloaded(entries)| <= max
    ensures var r := ReadText(p, SectionText(entries, section, first), max);
            r.Read? && r.entries == p.entries + AllReloaded(entries)
  {
    hide Writable, ReadLine, HeaderSection, LeafOf, SectionOf, Reloaded, EntryLine, Heading, ReadText;
    if |entries| == 0 {
      assert p.entries + [] == p.entries;
      ReadEmpty(p, max);
    } else {
      var e, more := entries[0], entries[1..];
      assert GoodLeaves(more) && AllWritable(more);
      if Sectioned(e) {
        var s := SectionOf(e);
        var rest := SectionText(more, s, false);
        var p1 := p.(section := HeaderSection(s));
        SectionAndLeaf(e);
        SectionFits(e);
        EntryLineTight(e);
        SectionTextSplit(entries, section, first);
        HeadingReads(p, s, section, first, EntryLine(e) + "\n" + rest, max);
        ReadOneLine(p1, EntryLine(e), rest, max);
        ReloadedFits(e, p1, max);
        var p2 := p1.(entries := p1.entries + [Reloaded(e)]);
        assert p2.entries + AllReloaded(more) == p.entries + AllReloaded(entries);
        SectionReads(more, s, false, p2, max);
      } else {
        assert AllReloaded(entries) == AllReloaded(more);
        SectionReads(more, section, first, p, max);
      }
    }
  }

  lemma ReadEmpty(p: Parse, max: nat)
    ensures ReadText(p, "", max) == p
  {}

  lemma SectionFits(e: Entry)
    requires Writable(e)
    ensures |SectionOf(e)| < KEY_MAX && '\n' !in SectionOf(e)
  {}

  // ---- exactly when it comes back unchanged ---------------------------------------------------

  /** What the guard does not check: a bracket in a section, or a leaf that reads as structure. */
  predicate Safe(e: Entry) {
    Sectioned(e) ==> GoodLeaf(e) && ']' !in SectionOf(e)
  }

  predicate AllSafe(entries: seq<Entry>) {
    forall i :: 0 <= i < |entries| ==> Safe(entries[i])
  }

  lemma ReloadedSame(e: Entry)
    requires Writable(e) && Sectioned(e)
    ensures Reloaded(e) == e <==> ']' !in SectionOf(e)
  {
    hide Writable;
    SectionAndLeaf(e);
    var s := SectionOf(e);
    if ']' !in s {
      TightStays(s);
    } else {
      assert |HeaderSection(s)| < |s|;
      assert |Flat(HeaderSection(s), LeafOf(e))| < |Flat(s, LeafOf(e))|;
    }
  }

  lemma {:induction false} AllReloadedSame(entries: seq<Entry>)
    requires AllWritable(entries) && GoodLeaves(entries)
    ensures |AllReloaded(entries)| == |InSections(entries)|
    ensures AllReloaded(entries) == InSections(entries) <==> AllSafe(entries)
  {
    hide Writable, SectionOf, LeafOf, Reloaded, GoodLeaf, Sectioned;
    if |entries| > 0 {
      var e, more := entries[0], entries[1..];
      assert GoodLeaves(more) && AllWritable(more);
      AllReloadedSame(more);
      assert AllSafe(entries) <==> Safe(e) && AllSafe(more);
      if Sectioned(e) {
        ReloadedSame(e);
        assert AllReloaded(entries)[0] == Reloaded(e) && AllReloaded(entries)[1..] == AllReloaded(more);
        assert InSections(entries)[0] == e && InSections(entries)[1..] == InSections(more);
      } else {
        assert AllReloaded(entries) == AllReloaded(more) && InSections(entries) == InSections(more);
      }
    }
  }

  function GoodCount(entries: seq<Entry>): nat {
    if |entries| == 0 then 0
    else (if Sectioned(entries[0]) && GoodLeaf(entries[0]) then 1 else 0) + GoodCount(entries[1..])
  }

  lemma {:induction false} BadLeafCounts(entries: seq<Entry>)
    ensures GoodCount(entries) <= |InSections(entries)|
    ensures !GoodLeaves(entries) ==> GoodCount(entries) < |InSections(entries)|
  {
    if |entries| > 0 {
      BadLeafCounts(entries[1..]);
      assert forall i :: 0 < i < |entries| ==> entries[i] == entries[1..][i - 1];
    }
  }

  predicate AddsAtMost(before: Parse, after: Parse, n: nat)
    requires before.Read?
  {
    after.Refused? || |after.entries| <= |before.entries| + n
  }

  lemma EntryAdds(p: Parse, e: Entry, max: nat)
    requires p.Read? && Writable(e)
    ensures AddsAtMost(p, ReadLine(p, EntryLine(e), max), if GoodLeaf(e) then 1 else 0)
  {
    hide ReadLine, Writable;
    if GoodLeaf(e) {
      EntryReads(p, e, max);
    } else {
      BadLeafReads(p, e, max);
    }
  }

  /** Whatever the leaves, only good ones can come back as entries. */
  lemma {:induction false} SectionAdds(entries: seq<Entry>, section: string, first: bool, p: Parse, max: nat)
    requires AllWritable(entries) && p.Read?
    ensures AddsAtMost(p, ReadText(p, SectionText(entries, section, first), max), GoodCount(entries))
  {
    hide Writable, ReadLine, HeaderSection, LeafOf, SectionOf, EntryLine, ReadText, GoodLeaf;
    if |entries| == 0 {
      ReadEmpty(p, max);
    } else {
      var e, more := entries[0], entries[1..];
      assert AllWritable(more);
      if Sectioned(e) {
        var s := SectionOf(e);
        var rest := SectionText(more, s, false);
        var after := EntryLine(e) + "\n" + rest;
        var p1 := if s == section then p else p.(section := HeaderSection(s));
        SectionFits(e);
        EntryLineTight(e);
        SectionTextSplit(entries, section, first);
        if s == section {
          assert Heading(s, section, first) + after == after;
        } else {
          HeadingReads(p, s, section, first, after, max);
        }
        ReadOneLine(p1, EntryLine(e), rest, max);
        EntryAdds(p1, e, max);
        var p2 := ReadLine(p1, EntryLine(e), max);
        if p2.Read? {
          SectionAdds(more, s, false, p2, max);
        } else {
          ReadNothingMore(p2, rest, max);
        }
      } else {
        SectionAdds(more, section, first, p, max);
      }
    }
  }

  lemma {:induction false} SplitCounts(entries: seq<Entry>)
    ensures |Roots(entries)| + |InSections(entries)| == |entries|
  {
    if |entries| > 0 {
      SplitCounts(entries[1..]);
    }
  }

  const NOTHING: Parse := Read("", [])

  /** Reading what was written gives the root entries and then the sectioned ones, each in their order and
      unchanged, if and only if no section holds a closing bracket and no sectioned leaf starts like a
      section or a comment. */
  lemma ReloadsExactly(entries: seq<Entry>, max: nat)
    requires AllWritable(entries) && |entries| <= max
    ensures var r := ReadText(NOTHING, Written(entries), max);
            (r.Read? && r.entries == Roots(entries) + InSections(entries)) <==> AllSafe(entries)
  {
    hide Writable, ReadText, SectionText, RootText, GoodLeaf, SectionOf, LeafOf;
    var first := RootText(entries) == "";
    var p := Read("", Roots(entries));
    SplitCounts(entries);
    assert [] + Roots(entries) == Roots(entries);
    RootReads(entries, NOTHING, SectionText(entries, "", first), max);
    if GoodLeaves(entries) {
      AllReloadedSame(entries);
      EmptyHeader();
      SectionReads(entries, "", first, p, max);
      var back := Roots(entries) + AllReloaded(entries);
      assert back[|Roots(entries)|..] == AllReloaded(entries);
      assert (Roots(entries) + InSections(entries))[|Roots(entries)|..] == InSections(entries);
    } else {
      SectionAdds(entries, "", first, p, max);
      BadLeafCounts(entries);
    }
  }

  lemma EmptyHeader()
    ensures HeaderSection("") == ""
  {}

  /** One sectioned entry, written and read back. */
  lemma OneSectioned(e: Entry, max: nat)
    requires Writable(e) && Sectioned(e)
    ensures ReadText(NOTHING, Written([e]), max) == ReadLine(Read(HeaderSection(SectionOf(e)), []), EntryLine(e), max)
  {
    hide ReadText, ReadLine, HeaderSection, EntryLine, Heading, SectionOf, LeafOf, Writable;
    var s, line := SectionOf(e), EntryLine(e);
    var p := Read(HeaderSection(s), []);
    SectionAndLeaf(e);
    SectionFits(e);
    EntryLineTight(e);
    EmptyHeader();
    OneWritten(e);
    assert line + "\n" == line + "\n" + "";
    HeadingReads(NOTHING, s, "", true, line + "\n", max);
    ReadOneLine(p, line, "", max);
    ReadEmpty(ReadLine(p, line, max), max);
  }

  lemma OneWritten(e: Entry)
    requires Sectioned(e)
    ensures Written([e]) == Heading(SectionOf(e), "", true) + (EntryLine(e) + "\n")
  {
    hide EntryLine, Heading, SectionOf;
    SectionTextSplit([e], "", true);
    assert [e][1..] == [];
    assert RootText([]) == "" && RootText([e]) == "" + RootText([]) == "";
    assert SectionText([], SectionOf(e), false) == "";
    assert EntryLine(e) + "\n" + "" == EntryLine(e) + "\n";
    assert "" + SectionText([e], "", true) == SectionText([e], "", true);
  }

  /** A key the guard lets through that does not come back: its line is a comment. */
  lemma CommentLeafIsLost()
    ensures AllWritable([Entry("s.#x", "1")]) && !AllSafe([Entry("s.#x", "1")])
    ensures ReadText(NOTHING, Written([Entry("s.#x", "1")]), 1) == Read("s", [])
  {
    var e := Entry("s.#x", "1");
    CommentParts(e);
    hide *;
    OneSectioned(e, 1);
    CommentReads(Read(HeaderSection(SectionOf(e)), []), e, 1);
  }

  lemma CommentReads(p: Parse, e: Entry, max: nat)
    requires p.Read? && Writable(e) && LeafOf(e)[0] == '#'
    ensures ReadLine(p, EntryLine(e), max) == p
  {
    hide Writable, LeafOf;
    EntryLineTight(e);
  }

  lemma CommentParts(e: Entry)
    requires e == Entry("s.#x", "1")
    ensures AllWritable([e]) && Writable(e) && Sectioned(e) && !AllSafe([e])
    ensures LeafOf(e)[0] == '#' && HeaderSection(SectionOf(e)) == "s"
  {
    IndexIs(e.key, '.', 1);
    assert e.key[2..] == "#x" && e.key[..1] == "s";
    assert !Safe([e][0]);
    TightStays("s");
  }

  /** A key the guard lets through that comes back as another: its header ends at the first bracket. */
  lemma BracketSectionIsCut()
    ensures AllWritable([Entry("a]b.c", "1")]) && !AllSafe([Entry("a]b.c", "1")])
    ensures ReadText(NOTHING, Written([Entry("a]b.c", "1")]), 1) == Read("a", [Entry("a.c", "1")])
  {
    var e := Entry("a]b.c", "1");
    var p := Read("a", []);
    BracketParts(e);
    BracketHeader();
    hide *;
    OneSectioned(e, 1);
    ReloadedFits(e, p, 1);
    BracketReloaded(e);
    assert p.entries + [Entry("a.c", "1")] == [Entry("a.c", "1")];
  }

  lemma BracketReloaded(e: Entry)
    requires e.value == "1" && HeaderSection(SectionOf(e)) == "a" && LeafOf(e) == "c"
    ensures Reloaded(e) == Entry("a.c", "1") && GoodLeaf(e)
  {
    assert Flat("a", "c") == "a.c";
  }

  lemma BracketParts(e: Entry)
    requires e == Entry("a]b.c", "1")
    ensures AllWritable([e]) && Writable(e) && Sectioned(e) && !AllSafe([e])
    ensures SectionOf(e) == "a]b" && LeafOf(e) == "c"
  {
    hide Index;
    IndexIs(e.key, '.', 3);
    assert e.key[..3] == "a]b" && e.key[4..] == "c";
    assert !Safe([e][0]) by { assert "a]b"[1] == ']'; }
  }

  lemma BracketHeader()
    ensures HeaderSection("a]b") == "a"
  {
    hide Index, TrimLeft, TrimRight;
    IndexIs("a]b", ']', 1);
    assert "a]b"[..1] == "a";
    TightStays("a");
  }
}
