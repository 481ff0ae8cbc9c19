// infparser/parser.py: `InfFileParser.parse_string`, which reads an INF
// file line by line into a case-insensitive dictionary of sections. The
// input is taken as already decoded text; section.py is not part of this
// model, and a section's data is taken to be a case-insensitive
// dictionary like the section table.
module InfParser {
  import opened Wrappers
  import opened PyStr
  import opened PyRe
  import opened CaseInsensitive

  /** A section: its name and its `key=value` lines. */
  datatype InfSection = InfSection(name: string, data: Entries<string>)

  /** The loop's variables: the sections saved so far and the section being read. */
  datatype ParseState = ParseState(sections: Entries<InfSection>, current: InfSection)

  /** Before the first line: no sections, and a current section without a name. */
  const Start := ParseState([], InfSection([], []))

  /** `SECTION_PATTERN.search(line).group(1)`, the text between the brackets. */
  function SectionName(line: string): (r: Option<string>)
    ensures r.Some? ==> |r.value| > 0
  {
    match GreedySearch(line, '[', ']')
    case None => None
    case Some(m) => Some(line[m.0 + 1..m.1])
  }

  /** A key or value in double quotes loses its first and last characters. */
  function Unquote(s: string): string
  {
    if |s| >= 2 && s[0] == '"' then s[1..|s| - 1] else s
  }

  /** The key and value of a `key=value` line: the first two `=` fields, stripped and unquoted. */
  function KeyValue(line: string): (string, string)
  {
    var kv := Split(line, "=");
    (Unquote(Strip(kv[0])), if |kv| >= 2 then Unquote(Strip(kv[1])) else [])
  }

  /** `sections[current_section.name] = current_section` when the current section has a name. */
  function Save(st: ParseState): (r: Entries<InfSection>)
    ensures st.current.name != [] ==> Lookup(r, st.current.name) == Ok(st.current)
    ensures st.current.name == [] ==> r == st.sections
  {
    if st.current.name != [] then
      StoreLookup(st.sections, st.current.name, st.current, st.current.name);
      Store(st.sections, st.current.name, st.current)
    else st.sections
  }

  /** The text of a line once it is stripped and its comment is cut off. */
  function Content(raw: string): string
  {
    Strip(Split(Strip(raw), ";")[0])
  }

  /** A blank line or one that starts with `;` (after stripping). */
  predicate IsComment(raw: string)
  {
    var line := Strip(raw);
    line == [] || line[0] == ';'
  }

  /** One turn of the loop. */
  function ParseLine(st: ParseState, raw: string): ParseState
  {
    if IsComment(raw) then st
    else
      match SectionName(Content(raw))
      case Some(name) => ParseState(Save(st), InfSection(name, []))
      case None =>
        if st.current.name == [] then st
        else
          var kv := KeyValue(Content(raw));
          ParseState(st.sections, st.current.(data := Store(st.current.data, kv.0, kv.1)))
  }

  function ParseLines(st: ParseState, lines: seq<string>): ParseState
    decreases |lines|
  {
    if lines == [] then st else ParseLines(ParseLine(st, lines[0]), lines[1..])
  }

  /** What `parse_string` returns: every line read, then the last section saved. */
  function Parse(text: string): Entries<InfSection>
  {
    Save(ParseLines(Start, Split(text, "\n")))
  }

  /** `parse_string`: the loop over the lines, with the table of sections as a dictionary object. */
  method ParseString(input: string) returns (sections: CaseInsensitiveDict<InfSection>)
    ensures fresh(sections) && sections.Valid() && sections.entries == Parse(input)
  {
    var lines := Split(input, "\n");
    var current := InfSection([], []);
    sections := new CaseInsensitiveDict();
    assert lines[0..] == lines;
    for i := 0 to |lines|
      invariant fresh(sections) && sections.Valid()
      invariant ParseLines(ParseState(sections.entries, current), lines[i..]) == ParseLines(Start, lines)
    {
      assert lines[i..][1..] == lines[i + 1..] && lines[i..][0] == lines[i];
      var line := Strip(lines[i]);
      if line == [] || line[0] == ';' {
        continue;
      }
      line := Strip(Split(line, ";")[0]);
      var m := SectionName(line);
      if m.Some? {
        if current.name != [] {
          sections.Set(current.name, current);
        }
        current := InfSection(m.value, []);
        continue;
      }
      if current.name == [] {
        continue;
      }
      var kv := KeyValue(line);
      current := current.(data := Store(current.data, kv.0, kv.1));
    }
    assert lines[|lines|..] == [];
    if current.name != [] {
      sections.Set(current.name, current);
    }
  }

  /** Section names, and the keys of the section being read, are stored lower-cased and distinct. */
  predicate WellFormed(st: ParseState)
  {
    Folded(st.sections) && KeysDistinct(st.sections) && Folded(st.current.data) && KeysDistinct(st.current.data)
  }

  /** Reading lines keeps the tables well formed. */
  lemma {:induction false} ParseLinesWellFormed(st: ParseState, lines: seq<string>)
    requires WellFormed(st)
    ensures WellFormed(ParseLines(st, lines))
    decreases |lines|
  {
    if lines != [] {
      ParseLinesWellFormed(ParseLine(st, lines[0]), lines[1..]);
    }
  }

  /** The table `parse_string` returns never holds two sections whose names differ only in case. */
  lemma ParseFolded(text: string)
    ensures Folded(Parse(text)) && KeysDistinct(Parse(text))
  {
    ParseLinesWellFormed(Start, Split(text, "\n"));
  }

  /** Reading two runs of lines is reading the first, then the second. */
  lemma {:induction false} ParseLinesAppend(st: ParseState, a: seq<string>, b: seq<string>)
    ensures ParseLines(st, a + b) == ParseLines(ParseLines(st, a), b)
    decreases |a|
  {
    if a == [] {
      assert a + b == b;
    } else {
      assert (a + b)[0] == a[0] && (a + b)[1..] == a[1..] + b;
      ParseLinesAppend(ParseLine(st, a[0]), a[1..], b);
      assert ParseLines(st, a) == ParseLines(ParseLine(st, a[0]), a[1..]);
    }
  }

  /** A blank or comment line, wherever it stands, changes nothing. */
  lemma CommentLineIgnored(st: ParseState, a: seq<string>, c: string, b: seq<string>)
    requires IsComment(c)
    ensures ParseLines(st, a + [c] + b) == ParseLines(st, a + b)
  {
    ParseLinesAppend(st, a + [c], b);
    ParseLinesAppend(st, a, [c]);
    ParseLinesAppend(st, a, b);
    assert ParseLines(ParseLines(st, a), [c]) == ParseLines(st, a);
  }

  /** A line that opens a section. */
  predicate IsHeader(raw: string)
  {
    !IsComment(raw) && SectionName(Content(raw)).Some?
  }

  /** Lines before the first section header are ignored. */
  lemma {:induction false} LinesBeforeFirstSection(st: ParseState, a: seq<string>)
    requires st.current.name == []
    requires forall l :: l in a ==> !IsHeader(l)
    ensures ParseLines(st, a) == st
    decreases |a|
  {
    if a != [] {
      assert a[0] in a;
      assert ParseLine(st, a[0]) == st;
      assert forall l :: l in a[1..] ==> l in a;
      LinesBeforeFirstSection(st, a[1..]);
    }
  }

  /** Text that can stand as a key or value: no `=`, `;`, `[`, quote or line break, no outer blanks. */
  predicate Plain(s: string)
  {
    Trimmed(s) && forall i :: 0 <= i < |s| ==> s[i] != '=' && s[i] != ';' && s[i] != '[' && s[i] != '"' && s[i] != '\n'
  }

  /** A section name that can be written between brackets: non-empty, no `;` or line break. */
  predicate Name(s: string)
  {
    |s| > 0 && forall i :: 0 <= i < |s| ==> s[i] != ';' && s[i] != '\n'
  }

  function HeaderLine(name: string): string
  {
    "[" + name + "]"
  }

  function EntryLine(key: string, value: string): string
  {
    key + "=" + value
  }

  /** `[name]` saves the current section and opens an empty one called `name`. */
  lemma ParseHeaderLine(st: ParseState, name: string)
    requires Name(name)
    ensures ParseLine(st, HeaderLine(name)) == ParseState(Save(st), InfSection(name, []))
  {
    var raw := HeaderLine(name);
    StripTrimmed(raw);
    assert forall i :: 0 <= i < |raw| ==> raw[i] != ';' by {
      assert forall i :: 1 <= i < |raw| - 1 ==> raw[i] == name[i - 1];
    }
    NotContainsChar(raw, ';');
    assert Split(raw, ";") == [raw];
    assert Content(raw) == raw;
    var m := GreedySearch(raw, '[', ']');
    assert raw[0] == '[' && raw[|raw| - 1] == ']';
    assert m.Some?;
    assert m.value.1 == |raw| - 1 && m.value.0 == 0;
    assert raw[1..|raw| - 1] == name;
  }

  /** `key=value` in a named section stores `value` under `key`. */
  lemma ParseEntryLine(st: ParseState, key: string, value: string)
    requires st.current.name != []
    requires |key| > 0 && Plain(key) && Plain(value)
    ensures ParseLine(st, EntryLine(key, value)) ==
      ParseState(st.sections, st.current.(data := Store(st.current.data, key, value)))
  {
    var raw := EntryLine(key, value);
    assert raw[0] == key[0] && raw[|raw| - 1] == if value == [] then '=' else value[|value| - 1];
    StripTrimmed(raw);
    assert forall i :: 0 <= i < |raw| ==> raw[i] != ';' && raw[i] != '[' by {
      assert forall i :: 0 <= i < |key| ==> raw[i] == key[i];
      assert forall i :: |key| < i < |raw| ==> raw[i] == value[i - |key| - 1];
    }
    NotContainsChar(raw, ';');
    assert Split(raw, ";") == [raw];
    assert Content(raw) == raw;
    assert SectionName(raw).None?;
    NotContainsChar(key, '=');
    NotContainsChar(value, '=');
    assert Join("=", [key, value]) == raw;
    SplitJoin([key, value], "=");
    StripTrimmed(key);
    StripTrimmed(value);
    assert KeyValue(raw) == (key, value);
  }

  /** A run of `key=value` assignments to one section's data, in order. */
  function StoreAll(data: Entries<string>, pairs: seq<(string, string)>): Entries<string>
    decreases |pairs|
  {
    if pairs == [] then data
    else
      var last := pairs[|pairs| - 1];
      Store(StoreAll(data, pairs[..|pairs| - 1]), last.0, last.1)
  }

  /** The index of the last pair whose key equals `k` ignoring case, or -1. */
  function LastAssigned(pairs: seq<(string, string)>, k: string): (r: int)
    ensures -1 <= r < |pairs|
    ensures r >= 0 ==> Lower(pairs[r].0) == Lower(k)
    ensures forall j :: r < j < |pairs| ==> Lower(pairs[j].0) != Lower(k)
  {
    if pairs == [] then -1
    else if Lower(pairs[|pairs| - 1].0) == Lower(k) then |pairs| - 1
    else LastAssigned(pairs[..|pairs| - 1], k)
  }

  /** After a run of assignments, a key holds the value of its last assignment, or what it held before. */
  lemma {:induction false} StoreAllLookup(data: Entries<string>, pairs: seq<(string, string)>, k: string)
    ensures Lookup(StoreAll(data, pairs), k) ==
      if LastAssigned(pairs, k) < 0 then Lookup(data, k) else Ok(pairs[LastAssigned(pairs, k)].1)
    decreases |pairs|
  {
    if pairs != [] {
      var init, last := pairs[..|pairs| - 1], pairs[|pairs| - 1];
      StoreAllLookup(data, init, k);
      StoreLookup(StoreAll(data, init), last.0, last.1, k);
    }
  }

  function EntryLines(pairs: seq<(string, string)>): (r: seq<string>)
    ensures |r| == |pairs| && forall j :: 0 <= j < |pairs| ==> r[j] == EntryLine(pairs[j].0, pairs[j].1)
  {
    if pairs == [] then [] else [EntryLine(pairs[0].0, pairs[0].1)] + EntryLines(pairs[1..])
  }

  /** Pairs that can be written as `key=value` lines and read back. */
  predicate PlainPairs(pairs: seq<(string, string)>)
  {
    forall j :: 0 <= j < |pairs| ==> |pairs[j].0| > 0 && Plain(pairs[j].0) && Plain(pairs[j].1)
  }

  /** In a named section, `key=value` lines are the same assignments to its data. */
  lemma {:induction false} ParseEntryLines(st: ParseState, pairs: seq<(string, string)>)
    requires st.current.name != [] && PlainPairs(pairs)
    ensures ParseLines(st, EntryLines(pairs)) ==
      ParseState(st.sections, st.current.(data := StoreAll(st.current.data, pairs)))
    decreases |pairs|
  {
    if pairs != [] {
      var init, last := pairs[..|pairs| - 1], pairs[|pairs| - 1];
      var lastLine := EntryLine(last.0, last.1);
      assert EntryLines(pairs) == EntryLines(init) + [lastLine];
      ParseLinesAppend(st, EntryLines(init), [lastLine]);
      ParseEntryLines(st, init);
      var mid := ParseState(st.sections, st.current.(data := StoreAll(st.current.data, init)));
      assert ParseLines(mid, [lastLine]) == ParseLine(mid, lastLine);
      ParseEntryLine(mid, last.0, last.1);
    }
  }

  /** The text of one section: its header, then one line per pair. */
  function SectionText(name: string, pairs: seq<(string, string)>): string
  {
    Join("\n", [HeaderLine(name)] + EntryLines(pairs))
  }

  /** No line of a section's text holds a line break, so splitting the text gives the lines back. */
  lemma SectionTextLines(name: string, pairs: seq<(string, string)>)
    requires Name(name) && PlainPairs(pairs)
    ensures Split(SectionText(name, pairs), "\n") == [HeaderLine(name)] + EntryLines(pairs)
  {
    var lines := [HeaderLine(name)] + EntryLines(pairs);
    forall j | 0 <= j < |lines| ensures !Contains(lines[j], "\n")
    {
      var l := lines[j];
      if j == 0 {
        assert forall i :: 1 <= i < |l| - 1 ==> l[i] == name[i - 1];
      } else {
        var p := pairs[j - 1];
        assert l == EntryLine(p.0, p.1);
        assert forall i :: 0 <= i < |p.0| ==> l[i] == p.0[i];
        assert forall i :: |p.0| < i < |l| ==> l[i] == p.1[i - |p.0| - 1];
      }
      NotContainsChar(l, '\n');
    }
    SplitJoin(lines, "\n");
  }

  /**
   * A section written out as text parses back: the result holds a section
   * of that name whose data is the pairs assigned in order (a repeated key
   * keeps its last value).
   */
  lemma ParseSectionText(name: string, pairs: seq<(string, string)>)
    requires Name(name) && PlainPairs(pairs)
    ensures Lookup(Parse(SectionText(name, pairs)), name) == Ok(InfSection(name, StoreAll([], pairs)))
  {
    SectionTextLines(name, pairs);
    ParseLinesAppend(Start, [HeaderLine(name)], EntryLines(pairs));
    ParseHeaderLine(Start, name);
    var st := ParseState(Save(Start), InfSection(name, []));
    assert ParseLines(Start, [HeaderLine(name)]) == st;
    ParseEntryLines(st, pairs);
  }
}
