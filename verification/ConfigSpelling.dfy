/** The INI grammar (platform/config_ini.c) spelled out on whole lines and texts: what each kind of line reads
    as, what the guard lets through, and what a file looks like character by character. */
module ConfigSpelling {
  import opened Wrappers
  import opened ConfigGrammar

  // ---- white space -------------------------------------------------------------------------

  /** Blanks, tabs, line feeds, vertical tabs, form feeds and carriage returns. */
  ghost predicate White(s: string) {
    forall i :: 0 <= i < |s| ==> s[i] in {' ', '\t', '\n', '\U{0B}', '\U{0C}', '\r'}
  }

  /** Text that is empty, or begins and ends with something that is not white. */
  ghost predicate Solid(s: string) {
    |s| > 0 ==> !White(s[..1]) && !White(s[|s| - 1..])
  }

  lemma WhiteIs(c: char)
    ensures White([c]) <==> IsSpace(c)
  {
    assert [c][0] == c;
  }

  lemma SolidIsTight(s: string)
    ensures Solid(s) <==> Tight(s)
  {
    hide White;
    if |s| > 0 {
      assert s[..1] == [s[0]] && s[|s| - 1..] == [s[|s| - 1]];
      WhiteIs(s[0]);
      WhiteIs(s[|s| - 1]);
    }
  }

  lemma {:induction false} DropsFront(a: string, t: string)
    requires White(a) && (|t| > 0 ==> !IsSpace(t[0]))
    ensures TrimLeft(a + t) == t
  {
    if |a| > 0 {
      DropsFront(a[1..], t);
      assert (a + t)[1..] == a[1..] + t;
    } else {
      assert a + t == t;
    }
  }

  lemma {:induction false} DropsBack(t: string, b: string)
    requires White(b) && (|t| > 0 ==> !IsSpace(t[|t| - 1]))
    ensures TrimRight(t + b) == t
  {
    if |b| > 0 {
      DropsBack(t, b[..|b| - 1]);
      assert (t + b)[..|t + b| - 1] == t + b[..|b| - 1];
    } else {
      assert t + b == t;
    }
  }

  /** Trimming takes off the white space on both sides, and all of it. */
  lemma TrimmedExactly(a: string, t: string, b: string)
    requires White(a) && Solid(t) && White(b)
    ensures Trimmed(a + t + b) == t
  {
    hide White;
    SolidIsTight(t);
    if |t| > 0 {
      assert a + t + b == a + (t + b);
      DropsFront(a, t + b);
      DropsBack(t, b);
    } else {
      WhiteJoins(a, b);
      assert a + t + b == (a + b) + "";
      DropsFront(a + b, "");
    }
  }

  lemma WhiteJoins(a: string, b: string)
    requires White(a) && White(b)
    ensures White(a + b)
  {}

  // ---- lines -------------------------------------------------------------------------------

  /** An assignment splits at the first sign, with white space allowed around both halves. Under a section its
      key is the section, a dot and the key. It is refused when the table is full, the key is empty, or the line
      or either half is too long. */
  lemma AssignmentReads(p: Parse, a: string, key: string, b: string, c: string, value: string, d: string, max: nat)
    requires p.Read? && White(a) && Solid(key) && White(b) && White(c) && Solid(value) && White(d)
    requires '=' !in key && (|key| > 0 ==> key[0] !in {'#', ';', '['})
    ensures var line := a + key + b + "=" + c + value + d;
            var flat := if p.section == "" then key else p.section + "." + key;
            ReadLine(p, line, max) ==
            if |line| <= 1155 && |p.entries| < max && key != "" && |flat| <= 127 && |value| <= 1023
            then Read(p.section, p.entries + [Entry(flat, value)])
            else Refused
  {
    hide ReadText, Index, IsSpace, TrimLeft, TrimRight, Trimmed, White, Solid;
    var line := a + key + b + "=" + c + value + d;
    TrimmedAssignment(a, key, b, c, value, d);
    TrimmedHalves(key, b, c, value);
    var left, right := Before(key, b), After(c, value);
    var t := left + "=" + right;
    NoSignBefore(key, b);
    assert t == left + ['='] + right;
    IndexAfter(left, '=', right);
    assert t[..|left|] == left && t[|left| + 1..] == right;
    assert t[0] == if key == "" then '=' else key[0];
  }

  /** What trimming the line leaves of each half. */
  ghost function Before(key: string, b: string): string {
    if key == "" then "" else key + b
  }

  ghost function After(c: string, value: string): string {
    if value == "" then "" else c + value
  }

  lemma NoSignBefore(key: string, b: string)
    requires '=' !in key && White(b)
    ensures '=' !in Before(key, b)
  {
    forall i | 0 <= i < |b| ensures b[i] != '=' {
      assert b[i] in {' ', '\t', '\n', '\U{0B}', '\U{0C}', '\r'};
    }
  }

  lemma TrimmedAssignment(a: string, key: string, b: string, c: string, value: string, d: string)
    requires White(a) && Solid(key) && White(b) && White(c) && Solid(value) && White(d)
    ensures Trimmed(a + key + b + "=" + c + value + d) == Before(key, b) + "=" + After(c, value)
  {
    hide White, Solid, Trimmed;
    var line := a + key + b + "=" + c + value + d;
    var front, back := if key == "" then a + b else a, if value == "" then c + d else d;
    var t := Before(key, b) + "=" + After(c, value);
    WhiteJoins(a, b);
    WhiteJoins(c, d);
    SolidAssignment(key, b, c, value);
    assert line == front + t + back;
    TrimmedExactly(front, t, back);
  }

  lemma SolidAssignment(key: string, b: string, c: string, value: string)
    requires Solid(key) && Solid(value)
    ensures Solid(Before(key, b) + "=" + After(c, value))
  {
    var t := Before(key, b) + "=" + After(c, value);
    SolidIsTight(key);
    SolidIsTight(value);
    hide White, Solid;
    assert t[0] == if key == "" then '=' else key[0];
    assert t[|t| - 1] == if value == "" then '=' else value[|value| - 1];
    SolidIsTight(t);
  }

  lemma TrimmedHalves(key: string, b: string, c: string, value: string)
    requires Solid(key) && White(b) && White(c) && Solid(value)
    ensures Trimmed(Before(key, b)) == key && Trimmed(After(c, value)) == value
  {
    hide Trimmed;
    Nothing();
    if key != "" {
      assert "" + key + b == key + b;
      TrimmedExactly("", key, b);
    }
    if value != "" {
      assert c + value + "" == c + value;
      TrimmedExactly(c, value, "");
    }
  }

  lemma Nothing()
    ensures White("") && Trimmed("") == ""
  {}

  /** A header leaves its section up to the first closing bracket, without the white space around it; what
      follows the bracket is passed over. One that is not closed is passed over whole. */
  lemma HeaderSpelled(p: Parse, a: string, b: string, section: string, c: string, more: string, max: nat)
    requires p.Read? && White(a) && White(b) && Solid(section) && White(c) && ']' !in section
    requires more == "" || Solid(more)
    ensures var line := a + "[" + b + section + c + "]" + more;
            ReadLine(p, line, max) ==
            if |line| > 1155 || |section| > 127 then Refused else Read(section, p.entries)
    ensures Solid("[" + section) && |a + "[" + section| <= 1155 ==> ReadLine(p, a + "[" + section, max) == p
  {
    hide ReadText, Index, IsSpace, TrimLeft, TrimRight, Trimmed, White, Solid;
    var inner := b + section + c;
    var t := "[" + inner + "]" + more;
    assert a + "[" + b + section + c + "]" + more == a + t + "";
    Nothing();
    SolidHeader(inner, more);
    TrimmedExactly(a, t, "");
    TrimmedExactly(b, section, c);
    NoBracketIn(b, section, c);
    assert t == (['['] + inner) + [']'] + more;
    IndexAfter(['['] + inner, ']', more);
    assert t[1..1 + |inner|] == inner;
    if Solid("[" + section) {
      assert a + "[" + section == a + ("[" + section) + "";
      TrimmedExactly(a, "[" + section, "");
      NotClosed(section);
    }
  }

  lemma NotClosed(section: string)
    requires ']' !in section
    ensures Index("[" + section, ']').None?
  {
    hide Index;
    var t := "[" + section;
    forall i | 0 <= i < |t| ensures t[i] != ']' {
      assert i > 0 ==> t[i] == section[i - 1];
    }
    var _ := Index(t, ']');
  }

  lemma NoBracketIn(b: string, section: string, c: string)
    requires White(b) && White(c) && ']' !in section
    ensures ']' !in b + section + c && ']' !in ['['] + (b + section + c)
  {
    var all := b + section + c;
    forall i | 0 <= i < |all| ensures all[i] != ']' {
      if i < |b| {
        assert b[i] in {' ', '\t', '\n', '\U{0B}', '\U{0C}', '\r'};
      } else if i < |b| + |section| {
        assert all[i] == section[i - |b|];
      } else {
        assert all[i] == c[i - |b| - |section|];
        assert c[i - |b| - |section|] in {' ', '\t', '\n', '\U{0B}', '\U{0C}', '\r'};
      }
    }
  }

  lemma SolidHeader(inner: string, more: string)
    requires more == "" || Solid(more)
    ensures Solid("[" + inner + "]" + more)
  {
    var t := "[" + inner + "]" + more;
    SolidIsTight(more);
    hide White, Solid;
    assert t[0] == '[' && t[|t| - 1] == if more == "" then ']' else more[|more| - 1];
    SolidIsTight(t);
  }

  /** Comments, blank lines and lines without a sign are passed over. */
  lemma PassedOver(p: Parse, a: string, t: string, max: nat)
    requires p.Read? && White(a) && Solid(t) && |a + t| <= 1155
    requires t == "" || t[0] == '#' || t[0] == ';' || (t[0] != '[' && '=' !in t)
    ensures ReadLine(p, a + t, max) == p
  {
    hide White, Solid, Trimmed;
    assert a + t == a + t + "";
    Nothing();
    TrimmedExactly(a, t, "");
  }

  /** Lines end at line feeds; the last may do without; and what is refused stays refused. */
  lemma LinesSplit(p: Parse, line: string, rest: string, max: nat)
    requires p.Read? && '\n' !in line
    ensures ReadText(p, line + "\n" + rest, max) == ReadText(ReadLine(p, line, max), rest, max)
    ensures ReadText(p, line, max) == ReadLine(p, line, max)
    ensures ReadText(Refused, rest, max) == Refused
  {
    hide ReadLine;
    ReadOneLine(p, line, rest, max);
    if line == "" {
      BlankReads(p, max);
    } else {
      var n := LineEnd(line);
      assert n == |line| && line[..n] == line;
      ReadEmpty(ReadLine(p, line, max), max);
    }
  }

  // ---- the guard ---------------------------------------------------------------------------

  /** A value may be written if it is solid and holds no line break. */
  lemma ValueGuard(value: string)
    ensures RoundTrips(value, false) <==> Solid(value) && '\n' !in value && '\r' !in value
  {
    hide White, Solid;
    SolidIsTight(value);
  }

  /** A key without a dot also must not be empty, hold a sign, or start like a section or a comment. */
  lemma RootGuard(key: string)
    requires '.' !in key
    ensures RoundTrips(key, true) <==>
            && key != "" && Solid(key) && key[0] !in {'[', '#', ';'}
            && (forall c :: c in {'\n', '\r', '='} ==> c !in key)
  {
    hide White, Solid;
    SolidIsTight(key);
  }

  /** Of a key with a dot both halves, at the first dot, must be there and have no white space at the dot. */
  lemma SectionedGuard(section: string, leaf: string)
    requires '.' !in section
    ensures RoundTrips(section + "." + leaf, true) <==>
            && section != "" && leaf != "" && Solid(section) && Solid(leaf) && section[0] !in {'[', '#', ';'}
            && (forall c :: c in {'\n', '\r', '='} ==> c !in section && c !in leaf)
  {
    hide White, Solid, Index;
    var key := section + "." + leaf;
    assert key == section + ['.'] + leaf;
    IndexAfter(section, '.', leaf);
    SolidIsTight(section);
    SolidIsTight(leaf);
    InParts(section, leaf, '\n');
    InParts(section, leaf, '\r');
    InParts(section, leaf, '=');
    if section != "" {
      assert key[0] == section[0] && key[|section| - 1] == section[|section| - 1];
    }
    if leaf != "" {
      assert key[|section| + 1] == leaf[0] && key[|key| - 1] == leaf[|leaf| - 1];
    }
  }

  lemma InParts(section: string, leaf: string, c: char)
    requires c != '.'
    ensures c in section + "." + leaf <==> c in section || c in leaf
  {}

  lemma FitsArrays(e: Entry)
    ensures Writable(e) <==>
            |e.key| <= 127 && |e.value| <= 1023 && RoundTrips(e.key, true) && RoundTrips(e.value, false)
  {}

  // ---- a file ------------------------------------------------------------------------------

  lemma SplitsAt(section: string, leaf: string, value: string)
    requires '.' !in section
    ensures var e := Entry(section + "." + leaf, value);
            Sectioned(e) && SectionOf(e) == section && LeafOf(e) == leaf
  {
    hide Index;
    var key := section + "." + leaf;
    assert key == section + ['.'] + leaf;
    IndexAfter(section, '.', leaf);
    assert key[..|section|] == section && key[|section| + 1..] == leaf;
  }

  /** Keys of two sections and of none, interleaved: the root key comes first, then each section under a header
      of its own, with a blank line before every header but one that opens the file. */
  lemma FileSpelled(s: string, t: string, k1: string, v1: string, k2: string, v2: string, k3: string, v3: string,
                    k4: string, v4: string)
    requires '.' !in s && '.' !in t && '.' !in k2 && s != t && s != "" && t != ""
    ensures var e1, e2 := Entry(s + "." + k1, v1), Entry(k2, v2);
            var e3, e4 := Entry(s + "." + k3, v3), Entry(t + "." + k4, v4);
            && Written([e1, e2, e3, e4]) ==
               (k2 + "=" + v2 + "\n") +
               ("\n[" + s + "]\n" + ((k1 + "=" + v1 + "\n") + ((k3 + "=" + v3 + "\n") +
               ("\n[" + t + "]\n" + (k4 + "=" + v4 + "\n")))))
            && Written([e1]) == "[" + s + "]\n" + (k1 + "=" + v1 + "\n")
  {
    hide *;
    var e1, e2, e3, e4 := Entry(s + "." + k1, v1), Entry(k2, v2), Entry(s + "." + k3, v3), Entry(t + "." + k4, v4);
    SplitsAt(s, k1, v1);
    SplitsAt(s, k3, v3);
    SplitsAt(t, k4, v4);
    RootOnly(e2);
    LineIs(e1);
    LineIs(e2);
    LineIs(e3);
    LineIs(e4);
    HeadingIs(s);
    HeadingIs(t);
    FourTexts(e1, e2, e3, e4, s, t);
    OneText(e1, s);
  }

  lemma OneText(e1: Entry, s: string)
    requires Sectioned(e1) && SectionOf(e1) == s
    ensures Written([e1]) == Heading(s, "", true) + (EntryLine(e1) + "\n")
  {
    hide *;
    assert [e1][1..] == [];
    WrittenIs([e1]);
    FirstText([e1], "", true);
    NoText(s);
    Nothings(EntryLine(e1) + "\n", Heading(s, "", true) + (EntryLine(e1) + "\n"));
  }

  lemma Nothings(a: string, b: string)
    ensures a + "" == a && "" + b == b
  {}

  lemma FourTexts(e1: Entry, e2: Entry, e3: Entry, e4: Entry, s: string, t: string)
    requires Sectioned(e1) && !Sectioned(e2) && Sectioned(e3) && Sectioned(e4) && s != t
    requires SectionOf(e1) == SectionOf(e3) == s && SectionOf(e4) == t
    ensures Written([e1, e2, e3, e4]) ==
            (EntryLine(e2) + "\n") + (Heading(s, "", false) + ((EntryLine(e1) + "\n") + ((EntryLine(e3) + "\n") +
            (Heading(t, s, false) + (EntryLine(e4) + "\n")))))
  {
    hide *;
    var l1, l2, l3, l4 := EntryLine(e1) + "\n", EntryLine(e2) + "\n", EntryLine(e3) + "\n", EntryLine(e4) + "\n";
    WrittenIs([e1, e2, e3, e4]);
    assert [e1, e2, e3, e4][1..] == [e2, e3, e4] && [e2, e3, e4][1..] == [e3, e4] && [e3, e4][1..] == [e4];
    assert [e4][1..] == [];
    FirstText([e1, e2, e3, e4], "", false);
    FirstText([e2, e3, e4], s, false);
    FirstText([e3, e4], s, false);
    FirstText([e4], s, false);
    NoText(t);
    HeadingSame(s);
    Nothings(l2, l3 + (Heading(t, s, false) + l4));
    Nothings(l4, "");
  }

  lemma RootOnly(e: Entry)
    requires '.' !in e.key
    ensures !Sectioned(e) && LeafOf(e) == e.key
  {}

  lemma WrittenIs(entries: seq<Entry>)
    ensures Written(entries) == RootText(entries) + SectionText(entries, "", RootText(entries) == "")
  {
    hide RootText, SectionText;
  }

  /** The first entry of a list, in the text of the root keys and in that of the sections. */
  lemma FirstText(entries: seq<Entry>, section: string, first: bool)
    requires |entries| > 0
    ensures var e, more := entries[0], entries[1..];
            && RootText(entries) == (if Sectioned(e) then RootText(more) else EntryLine(e) + "\n" + RootText(more))
            && SectionText(entries, section, first) ==
               if Sectioned(e) then
                 var s := SectionOf(e);
                 Heading(s, section, first) + (EntryLine(e) + "\n" + SectionText(more, s, false))
               else SectionText(more, section, first)
  {
    hide Heading, SectionOf, EntryLine;
    if Sectioned(entries[0]) {
      SectionTextSplit(entries, section, first);
      assert "" + RootText(entries[1..]) == RootText(entries[1..]);
    }
  }

  lemma NoText(section: string)
    ensures RootText([]) == "" && SectionText([], section, false) == ""
  {}

  lemma LineIs(e: Entry)
    ensures EntryLine(e) == LeafOf(e) + "=" + e.value
  {}

  lemma HeadingIs(s: string)
    requires s != ""
    ensures Heading(s, "", true) == "[" + s + "]\n"
    ensures forall section :: section != s ==> Heading(s, section, false) == "\n[" + s + "]\n"
  {
    assert HeaderLine(s) + "\n" == "[" + s + "]\n";
    assert "\n" + HeaderLine(s) + "\n" == "\n[" + s + "]\n";
    assert "" + HeaderLine(s) + "\n" == "[" + s + "]\n";
  }

  lemma HeadingSame(s: string)
    ensures Heading(s, s, false) == ""
  {}
}
