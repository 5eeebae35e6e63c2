/** Reading and writing INI text with fixed buffers (platform/config_ini.c): lines are copied into a buffer
    and cut and trimmed there, in place. */
module ConfigIni {
  import opened Wrappers
  import opened ConfigGrammar

  const NUL: char := '\0'

  /** The buffer holds the C string t at `at`. */
  ghost predicate Stores(buffer: seq<char>, at: nat, t: string) {
    && at + |t| < |buffer| && buffer[at + |t|] == NUL
    && (forall i :: 0 <= i < |t| ==> buffer[at + i] == t[i] && t[i] != NUL)
  }

  lemma StoredAt(buffer: seq<char>, at: nat, t: string, n: nat)
    requires Stores(buffer, at, t) && n <= |t|
    ensures buffer[at + n] == if n < |t| then t[n] else NUL
    ensures n < |t| ==> t[n] != NUL
  {}

  lemma StoresCopied(buffer: seq<char>, from: nat, after: seq<char>, at: nat, t: string)
    requires Stores(buffer, from, t) && at + |t| < |after|
    requires after[at..at + |t| + 1] == buffer[from..from + |t| + 1]
    ensures Stores(after, at, t)
  {
    forall i | 0 <= i < |t| ensures after[at + i] == t[i] && t[i] != NUL {
      StoredAt(buffer, from, t, i);
      assert after[at..at + |t| + 1][i] == buffer[from..from + |t| + 1][i];
    }
    assert after[at..at + |t| + 1][|t|] == buffer[from..from + |t| + 1][|t|];
  }

  method StrLen(s: array<char>, at: nat, ghost t: string) returns (n: nat)
    requires Stores(s[..], at, t)
    ensures n == |t|
  {
    n := 0;
    while s[at + n] != NUL
      invariant n <= |t| && at + n < s.Length
      decreases |t| - n
    {
      StoredAt(s[..], at, t, n);
      n := n + 1;
    }
    StoredAt(s[..], at, t, n);
  }

  lemma {:induction false} TrimLeftSkips(t: string, k: nat)
    requires k <= |t| && (forall i :: 0 <= i < k ==> IsSpace(t[i])) && (k < |t| ==> !IsSpace(t[k]))
    ensures TrimLeft(t) == t[k..]
  {
    if k > 0 {
      TrimLeftSkips(t[1..], k - 1);
      assert t[1..][k - 1..] == t[k..];
    }
  }

  lemma {:induction false} TrimRightDrops(t: string, k: nat)
    requires k <= |t| && (forall i :: k <= i < |t| ==> IsSpace(t[i])) && (k > 0 ==> !IsSpace(t[k - 1]))
    ensures TrimRight(t) == t[..k]
    decreases |t|
  {
    if k < |t| {
      TrimRightDrops(t[..|t| - 1], k);
      assert t[..|t| - 1][..k] == t[..k];
    } else {
      assert t[..k] == t;
    }
  }

  /** Trim a C string in place: nothing before it or past its end is touched. */
  method Trim(s: array<char>, at: nat, ghost t: string)
    requires Stores(s[..], at, t)
    modifies s
    ensures Stores(s[..], at, Trimmed(t))
    ensures forall i :: 0 <= i < at || at + |t| < i < s.Length ==> s[i] == old(s[i])
  {
    var start := at;
    while s[start] != NUL && IsSpace(s[start])
      invariant at <= start <= at + |t| && s[..] == old(s[..])
      invariant forall i :: 0 <= i < start - at ==> IsSpace(t[i])
      decreases at + |t| - start
    {
      StoredAt(s[..], at, t, start - at);
      start := start + 1;
    }
    StoredAt(s[..], at, t, start - at);
    TrimLeftSkips(t, start - at);
    ghost var left := t[start - at..];
    if start != at {
      MoveDown(s, at, start, left);
    }
    TrimEnd(s, at, left);
  }

  /** Cut trailing white space off a C string in place. */
  method TrimEnd(s: array<char>, at: nat, ghost t: string)
    requires Stores(s[..], at, t)
    modifies s
    ensures Stores(s[..], at, TrimRight(t))
    ensures forall i :: 0 <= i < at || at + |t| < i < s.Length ==> s[i] == old(s[i])
  {
    hide TrimRight, Stores;
    var len := StrLen(s, at, t);
    assert t[..len] == t;
    Stored(s[..], at, t);
    while len > 0 && IsSpace(s[at + len - 1])
      invariant len <= |t| && at + |t| < s.Length
      invariant Stores(s[..], at, t[..len])
      invariant len > 0 ==> s[at + len - 1] == t[len - 1]
      invariant forall i :: len <= i < |t| ==> IsSpace(t[i])
      invariant forall i :: 0 <= i < at || at + |t| < i < s.Length ==> s[i] == old(s[i])
    {
      len := len - 1;
      ghost var before := s[..];
      s[at + len] := NUL;
      assert s[..] == before[at + len := NUL];
      Shortened(before, at, t[..len + 1]);
      assert t[..len + 1][..len] == t[..len];
    }
    TrimRightDrops(t, len);
  }

  lemma Stored(buffer: seq<char>, at: nat, t: string)
    requires Stores(buffer, at, t)
    ensures at + |t| < |buffer| && (|t| > 0 ==> buffer[at + |t| - 1] == t[|t| - 1])
  {}

  /** A NUL over the last character. */
  lemma Shortened(buffer: seq<char>, at: nat, t: string)
    requires Stores(buffer, at, t) && |t| > 0
    ensures at + |t| < |buffer|
    ensures var after := buffer[at + |t| - 1 := NUL];
            Stores(after, at, t[..|t| - 1]) && (|t| > 1 ==> after[at + |t| - 2] == t[|t| - 2])
  {}

  /** memmove of a C string towards the front of its buffer. */
  method MoveDown(s: array<char>, at: nat, from: nat, ghost t: string)
    requires at <= from && Stores(s[..], from, t)
    modifies s
    ensures Stores(s[..], at, t)
    ensures forall i :: 0 <= i < at || from + |t| < i < s.Length ==> s[i] == old(s[i])
  {
    var n := StrLen(s, from, t);
    for j := 0 to n + 1
      invariant s[at..at + j] == old(s[from..from + j])
      invariant forall i :: from + j <= i < s.Length ==> s[i] == old(s[i])
      invariant forall i :: 0 <= i < at ==> s[i] == old(s[i])
    {
      s[at + j] := s[from + j];
      assert s[at..at + j + 1] == old(s[from..from + j]) + [old(s[from + j])];
    }
    StoresCopied(old(s[..]), from, s[..], at, t);
  }

  /** strchr: how far into the string the character first is. */
  method StrChr(s: array<char>, at: nat, c: char, ghost t: string) returns (r: Option<nat>)
    requires Stores(s[..], at, t) && c != NUL
    ensures r == Index(t, c)
  {
    hide Index;
    var k := 0;
    while s[at + k] != NUL && s[at + k] != c
      invariant k <= |t| && forall i :: 0 <= i < k ==> t[i] != c
      decreases |t| - k
    {
      StoredAt(s[..], at, t, k);
      k := k + 1;
    }
    StoredAt(s[..], at, t, k);
    if s[at + k] == c {
      IndexIs(t, c, k);
      r := Some(k);
    } else {
      NoIndex(t, c);
      r := None;
    }
  }

  lemma NoIndex(t: string, c: char)
    requires forall i :: 0 <= i < |t| ==> t[i] != c
    ensures Index(t, c) == None
  {
    hide Index;
  }

  /** Copy a C string out of a buffer. */
  method CopyOut(s: array<char>, at: nat, ghost t: string) returns (copy: string)
    requires Stores(s[..], at, t)
    ensures copy == t
  {
    var n := StrLen(s, at, t);
    copy := s[at..at + n];
    assert forall i :: 0 <= i < n ==> copy[i] == t[i];
  }

  /** Copy a line in. */
  method CopyIn(s: array<char>, line: string)
    requires |line| < s.Length && NUL !in line
    modifies s
    ensures Stores(s[..], 0, line)
  {
    for i := 0 to |line|
      invariant forall j :: 0 <= j < i ==> s[j] == line[j]
    {
      s[i] := line[i];
    }
    s[|line|] := NUL;
  }

  /** Cutting at k leaves the front there and the back where it was. */
  method Cut(s: array<char>, k: nat, ghost t: string)
    requires Stores(s[..], 0, t) && k < |t|
    modifies s
    ensures Stores(s[..], 0, t[..k]) && Stores(s[..], k + 1, t[k + 1..])
    ensures k >= 1 ==> Stores(s[..], 1, t[1..k])
  {
    s[k] := NUL;
  }

  /** A line that opens a section. */
  method TakeHeader(line: array<char>, p: Parse, ghost u: string) returns (r: Parse)
    requires p.Read? && Stores(line[..], 0, u) && |u| > 0 && u[0] == '['
    modifies line
    ensures r == ReadHeader(p, u)
  {
    hide TrimLeft, TrimRight, Index, Stores;
    var close := StrChr(line, 0, ']', u);
    if close.None? {
      return p;
    }
    Cut(line, close.value, u);
    Trim(line, 1, u[1..close.value]);
    var section := CopyOut(line, 1, Trimmed(u[1..close.value]));
    if |section| >= KEY_MAX {
      return Refused;
    }
    return p.(section := section);
  }

  /** A line with a key and a value, split at the first '='. */
  method TakeEntry(line: array<char>, p: Parse, max: nat, eq: nat, ghost u: string) returns (r: Parse)
    requires p.Read? && Stores(line[..], 0, u) && eq < |u|
    modifies line
    ensures r == ReadEntry(p, Trimmed(u[..eq]), Trimmed(u[eq + 1..]), max)
  {
    hide Trimmed;
    Cut(line, eq, u);
    TrimFront(line, eq, u);
    var key := CopyOut(line, 0, Trimmed(u[..eq]));
    var value := CopyOut(line, eq + 1, Trimmed(u[eq + 1..]));
    if |p.entries| >= max {
      return Refused;
    }
    var flattened := |p.section| + (if |p.section| != 0 then 1 else 0) + |key|;
    if key == "" || flattened >= KEY_MAX || |value| >= VALUE_MAX {
      return Refused;
    }
    return p.(entries := p.entries + [Entry(if |p.section| != 0 then p.section + "." + key else key, value)]);
  }

  /** Trim both halves of a cut line; neither disturbs the other. */
  method TrimFront(line: array<char>, eq: nat, ghost u: string)
    requires eq < |u| && Stores(line[..], 0, u[..eq]) && Stores(line[..], eq + 1, u[eq + 1..])
    modifies line
    ensures Stores(line[..], 0, Trimmed(u[..eq])) && Stores(line[..], eq + 1, Trimmed(u[eq + 1..]))
  {
    hide Trimmed;
    Trim(line, 0, u[..eq]);
    Trim(line, eq + 1, u[eq + 1..]);
  }

  /** One line of text. */
  method TakeLine(line: array<char>, p: Parse, max: nat, ghost t: string) returns (r: Parse)
    requires p.Read? && line.Length == LINE_MAX && Stores(line[..], 0, t)
    modifies line
    ensures r == ReadTrimmed(p, Trimmed(t), max)
  {
    hide TrimLeft, TrimRight, Index, ReadEntry, ReadHeader, Stores;
    Trim(line, 0, t);
    StoredAt(line[..], 0, Trimmed(t), 0);
    if line[0] == NUL || line[0] == '#' || line[0] == ';' {
      return p;
    }
    if line[0] == '[' {
      r := TakeHeader(line, p, Trimmed(t));
      return;
    }
    var eq := StrChr(line, 0, '=', Trimmed(t));
    if eq.None? {
      return p;
    }
    r := TakeEntry(line, p, max, eq.value, Trimmed(t));
  }

  /** Read a whole text; nothing is truncated, and too much of anything refuses it all. */
  method ParseText(text: string, max: int) returns (ok: bool, entries: seq<Entry>)
    requires NUL !in text
    ensures max <= 0 ==> !ok
    ensures max > 0 ==> ok == ReadText(NOTHING, text, max).Read?
    ensures ok ==> entries == ReadText(NOTHING, text, max).entries && |entries| <= max
  {
    hide ReadTrimmed, LineEnd, TrimLeft, TrimRight;
    if max <= 0 {
      return false, [];
    }
    var line := new char[LINE_MAX];
    var state := NOTHING;
    var at := 0;
    while at < |text|
      invariant at <= |text| && state.Read? && |state.entries| <= max
      invariant ReadText(state, text[at..], max) == ReadText(NOTHING, text, max)
    {
      var n := LineEnd(text[at..]);
      if n >= LINE_MAX {
        return false, [];
      }
      var content := text[at..][..n];
      CopyIn(line, content);
      var next := TakeLine(line, state, max, content);
      assert Rest(text[at..], n) == if at + n < |text| then text[at + n + 1..] else text[|text|..];
      if next.Refused? {
        ReadNothingMore(next, Rest(text[at..], n), max);
        return false, [];
      }
      BoundKept(state, Trimmed(content), max);
      state := next;
      at := if at + n < |text| then at + n + 1 else at + n;
    }
    return true, state.entries;
  }

  lemma BoundKept(p: Parse, t: string, max: nat)
    requires p.Read? && |p.entries| <= max
    ensures ReadTrimmed(p, t, max).Read? ==> |ReadTrimmed(p, t, max).entries| <= max
  {
    hide TrimLeft, TrimRight;
  }

  /** What the writer still has to write. */
  function ToCome(entries: seq<Entry>, pass: nat, i: nat, section: string, nothingYet: bool): string
    requires i <= |entries|
  {
    if pass == 0 then
      var roots := RootText(entries[i..]);
      roots + SectionText(entries, section, nothingYet && roots == "")
    else if pass == 1 then SectionText(entries[i..], section, nothingYet)
    else ""
  }

  /** The lines for one entry: in the first pass root keys only, in the second only the others. */
  function Lines(e: Entry, pass: nat, section: string, nothingYet: bool): string {
    if (pass == 0) == Sectioned(e) then ""
    else Heading(SectionOf(e), section, nothingYet) + (EntryLine(e) + "\n")
  }

  lemma ToComeStep(entries: seq<Entry>, pass: nat, i: nat, section: string, nothingYet: bool)
    requires i < |entries| && pass < 2 && (pass == 0 ==> section == "")
    ensures var e := entries[i];
            var after := if (pass == 0) == Sectioned(e) then section else SectionOf(e);
            ToCome(entries, pass, i, section, nothingYet) ==
            Lines(e, pass, section, nothingYet) +
              ToCome(entries, pass, i + 1, after, nothingYet && (pass == 0) == Sectioned(e))
    ensures pass == 0 && !Sectioned(entries[i]) ==> SectionOf(entries[i]) == ""
  {
    hide EntryLine, LeafOf, Heading, SectionOf, SectionText, RootText;
    var e, rest := entries[i], entries[i + 1..];
    assert entries[i..][1..] == rest && entries[i..][0] == e;
    RootHasNoSection(e);
    if pass == 1 {
      SectionStep(e, entries[i..], section, nothingYet);
    } else {
      RootStep(e, entries[i..]);
      NoHeading(section, nothingYet);
      if !Sectioned(e) {
        var line, roots := EntryLine(e) + "\n", RootText(rest);
        assert "" + line == line;
        assert line + (roots + SectionText(entries, "", false)) == line + roots + SectionText(entries, "", false);
      }
    }
  }

  lemma RootHasNoSection(e: Entry)
    ensures !Sectioned(e) ==> SectionOf(e) == ""
  {}

  lemma RootStep(e: Entry, entries: seq<Entry>)
    requires |entries| > 0 && entries[0] == e
    ensures RootText(entries) ==
            if Sectioned(e) then RootText(entries[1..]) else EntryLine(e) + "\n" + RootText(entries[1..])
  {
    hide EntryLine;
  }

  lemma SectionStep(e: Entry, entries: seq<Entry>, section: string, nothingYet: bool)
    requires |entries| > 0 && entries[0] == e
    ensures SectionText(entries, section, nothingYet) ==
            if Sectioned(e) then
              Heading(SectionOf(e), section, nothingYet) + (EntryLine(e) + "\n") +
                SectionText(entries[1..], SectionOf(e), false)
            else SectionText(entries[1..], section, nothingYet)
  {
    hide EntryLine, Heading, SectionOf;
    if Sectioned(e) {
      SectionTextSplit(entries, section, nothingYet);
      var heading, line := Heading(SectionOf(e), section, nothingYet), EntryLine(e) + "\n";
      var rest := SectionText(entries[1..], SectionOf(e), false);
      assert heading + line + rest == heading + (line + rest);
    }
  }

  lemma NoHeading(section: string, nothingYet: bool)
    ensures Heading(section, section, nothingYet) == ""
  {}

  /** Append to the output if the terminator still fits after it. */
  method Append(out: string, piece: string, capacity: nat) returns (ok: bool, longer: string)
    requires |out| < capacity
    ensures ok <==> |out| + |piece| < capacity
    ensures longer == if ok then out + piece else out
  {
    if |piece| >= capacity - |out| {
      return false, out;
    }
    return true, out + piece;
  }

  /** Write one entry's lines. */
  method WriteEntry(out: string, e: Entry, section: string, capacity: nat) returns (ok: bool, longer: string)
    requires |out| < capacity
    ensures var lines := Heading(SectionOf(e), section, |out| == 0) + (EntryLine(e) + "\n");
            (ok <==> |out| + |lines| < capacity) && (ok ==> longer == out + lines)
  {
    hide EntryLine, SectionOf;
    ok, longer := true, out;
    var s := SectionOf(e);
    ghost var heading := Heading(s, section, |out| == 0);
    if s != section {
      ok, longer := Append(out, (if |out| > 0 then "\n" else "") + HeaderLine(s) + "\n", capacity);
      if !ok {
        return;
      }
    }
    assert longer == out + heading;
    ok, longer := Append(longer, EntryLine(e) + "\n", capacity);
    assert out + heading + (EntryLine(e) + "\n") == out + (heading + (EntryLine(e) + "\n"));
  }

  /** Write everything, or refuse: an entry the guard turns away, or a text that does not fit. */
  method SerializeText(entries: seq<Entry>, capacity: nat) returns (ok: bool, out: string)
    requires forall i :: 0 <= i < |entries| ==> |entries[i].key| < KEY_MAX && |entries[i].value| < VALUE_MAX
    ensures ok <==> AllWritable(entries) && |Written(entries)| < capacity
    ensures ok ==> out == Written(entries)
  {
    hide RoundTrips, Heading, EntryLine, SectionOf, LeafOf, ToCome, Lines, Written;
    out := "";
    if capacity == 0 {
      return false, out;
    }
    for i := 0 to |entries|
      invariant AllWritable(entries[..i])
    {
      assert entries[..i + 1] == entries[..i] + [entries[i]];
      if !RoundTrips(entries[i].key, true) || !RoundTrips(entries[i].value, false) {
        assert !Writable(entries[i]);
        return false, out;
      }
    }
    assert entries[..|entries|] == entries;
    var section := "";
    AllToCome(entries);
    for pass := 0 to 2
      invariant |out| < capacity && (pass == 0 ==> section == "")
      invariant Written(entries) == out + ToCome(entries, pass, 0, section, |out| == 0)
    {
      for i := 0 to |entries|
        invariant |out| < capacity && (pass == 0 ==> section == "")
        invariant Written(entries) == out + ToCome(entries, pass, i, section, |out| == 0)
      {
        var e := entries[i];
        ghost var here := ToCome(entries, pass, i, section, |out| == 0);
        ToComeStep(entries, pass, i, section, |out| == 0);
        if (pass == 0) != Sectioned(e) {
          ghost var before, lines := out, Lines(e, pass, section, |out| == 0);
          LinesOf(e, pass, section, |out| == 0);
          ghost var rest := ToCome(entries, pass, i + 1, SectionOf(e), false);
          ok, out := WriteEntry(out, e, section, capacity);
          if !ok {
            return false, out;
          }
          section := SectionOf(e);
          assert before + (lines + rest) == before + lines + rest;
        } else {
          LinesOf(e, pass, section, |out| == 0);
          assert out + ("" + ToCome(entries, pass, i + 1, section, |out| == 0)) ==
                 out + ToCome(entries, pass, i + 1, section, |out| == 0);
        }
      }
      PassEnds(entries, pass, section, |out| == 0);
    }
    NothingToCome(entries, section, |out| == 0);
    assert out + "" == out;
    return true, out;
  }

  lemma LinesOf(e: Entry, pass: nat, section: string, nothingYet: bool)
    ensures (pass == 0) == Sectioned(e) ==> Lines(e, pass, section, nothingYet) == ""
    ensures (pass == 0) != Sectioned(e) ==>
              Lines(e, pass, section, nothingYet) == Heading(SectionOf(e), section, nothingYet) + (EntryLine(e) + "\n")
    ensures (pass == 0) != Sectioned(e) ==> |Lines(e, pass, section, nothingYet)| > 0
  {}

  lemma AllToCome(entries: seq<Entry>)
    ensures Written(entries) == "" + ToCome(entries, 0, 0, "", true)
  {
    assert entries[0..] == entries;
  }

  lemma PassEnds(entries: seq<Entry>, pass: nat, section: string, nothingYet: bool)
    requires pass < 2
    ensures ToCome(entries, pass, |entries|, section, nothingYet) == ToCome(entries, pass + 1, 0, section, nothingYet)
  {
    assert entries[0..] == entries;
    assert entries[|entries|..] == [];
    assert "" + SectionText(entries, section, nothingYet) == SectionText(entries, section, nothingYet);
  }

  lemma NothingToCome(entries: seq<Entry>, section: string, nothingYet: bool)
    ensures ToCome(entries, 2, 0, section, nothingYet) == ""
  {}

  // ---- written and read back ------------------------------------------------------------------

  predicate NoNul(e: Entry) {
    NUL !in e.key && NUL !in e.value
  }

  lemma LineHasNoNul(e: Entry)
    requires NoNul(e)
    ensures NUL !in EntryLine(e) && NUL !in SectionOf(e)
  {}

  lemma {:induction false} RootHasNoNul(entries: seq<Entry>)
    requires forall i :: 0 <= i < |entries| ==> NoNul(entries[i])
    ensures NUL !in RootText(entries)
  {
    hide EntryLine, SectionOf, Sectioned;
    if |entries| > 0 {
      LineHasNoNul(entries[0]);
      RootHasNoNul(entries[1..]);
    }
  }

  lemma {:induction false} SectionHasNoNul(entries: seq<Entry>, section: string, first: bool)
    requires forall i :: 0 <= i < |entries| ==> NoNul(entries[i])
    ensures NUL !in SectionText(entries, section, first)
  {
    hide EntryLine, SectionOf, Sectioned;
    if |entries| > 0 {
      LineHasNoNul(entries[0]);
      SectionHasNoNul(entries[1..], section, first);
      SectionHasNoNul(entries[1..], SectionOf(entries[0]), false);
    }
  }

  /** Everything is written and read back: root entries first, then sectioned ones, each in their order and
      unchanged, if and only if no section holds a closing bracket and no sectioned leaf starts like a
      section or a comment. */
  method WriteAndRead(entries: seq<Entry>, capacity: nat, max: int) returns (written: bool, ok: bool, back: seq<Entry>)
    requires forall i :: 0 <= i < |entries| ==> |entries[i].key| < KEY_MAX && |entries[i].value| < VALUE_MAX
    requires forall i :: 0 <= i < |entries| ==> NoNul(entries[i])
    ensures written <==> AllWritable(entries) && |Written(entries)| < capacity
    ensures written && max > 0 && max >= |entries| ==>
              ((ok && back == Roots(entries) + InSections(entries)) <==> AllSafe(entries))
  {
    hide RootText, SectionText, ReadText, Writable, NoNul, Safe;
    var text;
    written, text := SerializeText(entries, capacity);
    if !written {
      return false, false, [];
    }
    RootHasNoNul(entries);
    SectionHasNoNul(entries, "", RootText(entries) == "");
    ok, back := ParseText(text, max);
    if max > 0 && max >= |entries| {
      ReloadsExactly(entries, max);
    }
  }
}
