/** Records kept as text: the `name=value` files of backups, the lines of the WAL catalogue and
    lists of backup ids (barman/infofile.py). Values are taken as they are printed. */
module InfoFile {
  import opened Wrappers
  import opened Sequences

  // ---------------------------------------------------------------- text

  /** What Python's `str.isspace` and `str.strip` take for white space. */
  predicate IsSpace(c: char) {
    var n := c as int;
    || 9 <= n <= 13 || 28 <= n <= 32 || n == 0x85 || n == 0xA0 || n == 0x1680 || 0x2000 <= n <= 0x200A
    || 0x2028 <= n <= 0x2029 || n == 0x202F || n == 0x205F || n == 0x3000
  }

  predicate AllSpace(s: string) { forall i :: 0 <= i < |s| ==> IsSpace(s[i]) }

  predicate NoSpace(s: string) { forall i :: 0 <= i < |s| ==> !IsSpace(s[i]) }

  function LStrip(s: string): (r: string)
    ensures |r| <= |s| && r == s[|s| - |r|..] && (r != "" ==> !IsSpace(r[0]))
  {
    if s != "" && IsSpace(s[0]) then LStrip(s[1..]) else s
  }

  function RStrip(s: string): (r: string)
    ensures |r| <= |s| && r == s[..|r|] && (r != "" ==> !IsSpace(r[|r| - 1]))
  {
    if s != "" && IsSpace(s[|s| - 1]) then RStrip(s[..|s| - 1]) else s
  }

  function Strip(s: string): string { RStrip(LStrip(s)) }

  predicate Bare(s: string) { s != "" ==> !IsSpace(s[0]) && !IsSpace(s[|s| - 1]) }

  lemma RStripNewline(s: string)
    ensures RStrip(s + ['\n']) == RStrip(s)
  {
    assert (s + ['\n'])[..|s|] == s;
  }

  lemma StripNewline(s: string)
    requires Bare(s)
    ensures Strip(s + ['\n']) == s && Strip(s) == s
  {
    RStripNewline(s);
    if s == "" {
      assert (s + ['\n'])[1..] == s;
    } else {
      assert (s + ['\n'])[0] == s[0];
    }
  }

  /** A newline, if any, is the last character. */
  predicate NewlineLast(s: string) { forall i :: 0 <= i < |s| - 1 ==> s[i] != '\n' }

  lemma LStripKeeps(s: string)
    requires NewlineLast(s)
    ensures NewlineLast(LStrip(s))
  {
    hide IsSpace;
    var l := LStrip(s);
    forall i | 0 <= i < |l| ensures l[i] == s[|s| - |l| + i] { }
  }

  lemma RStripDrops(l: string)
    requires NewlineLast(l)
    ensures '\n' !in RStrip(l)
  {
    assert IsSpace('\n');
    hide IsSpace;
    var r := RStrip(l);
    forall i | 0 <= i < |r| ensures r[i] != '\n' { assert r[i] == l[i]; }
  }

  lemma StripIsBare(s: string)
    requires NewlineLast(s)
    ensures Bare(Strip(s)) && '\n' !in Strip(s)
  {
    hide IsSpace, NewlineLast;
    LStripKeeps(s);
    RStripDrops(LStrip(s));
    var l, r := LStrip(s), Strip(s);
    assert r != "" ==> r[0] == l[0];
  }

  lemma {:induction false} IndexAfter(before: string, c: char, rest: string)
    requires c !in before
    ensures IndexOf(before + [c] + rest, c) == |before|
  {
    var s := before + [c] + rest;
    if before != "" {
      assert s[0] == before[0];
      assert s[1..] == before[1..] + [c] + rest;
      IndexAfter(before[1..], c, rest);
    }
  }

  /** A file is read line by line, each with its newline. */
  function Lines(text: string): seq<string> {
    if text == "" then []
    else
      var k := IndexOf(text, '\n');
      if k == |text| then [text] else [text[..k + 1]] + Lines(text[k + 1..])
  }

  predicate IsLine(line: string) { line != "" && NewlineLast(line) }

  lemma {:induction false} LinesAreLines(text: string)
    ensures forall i :: 0 <= i < |Lines(text)| ==> IsLine(Lines(text)[i])
  {
    if text != "" {
      var k := IndexOf(text, '\n');
      forall i | 0 <= i < k ensures text[i] != '\n' { assert text[i] == text[..k][i]; }
      if k < |text| { LinesAreLines(text[k + 1..]); }
    }
  }

  lemma FirstLine(line: string, rest: string)
    requires '\n' !in line
    ensures Lines(line + ['\n'] + rest) == [line + ['\n']] + Lines(rest)
  {
    var text := line + ['\n'] + rest;
    IndexAfter(line, '\n', rest);
    assert text[..|line| + 1] == line + ['\n'] && text[|line| + 1..] == rest;
  }

  // ---------------------------------------------------------------- records

  type Fields = map<string, Option<string>>

  datatype Loaded = Loaded(fields: Fields, ok: bool)

  function Printed(value: Option<string>): string { if value.None? then "None" else value.value }

  function FieldLine(name: string, value: Option<string>): string { name + ['='] + Printed(value) + ['\n'] }

  predicate Hides(name: string, value: Option<string>, hidden: set<string>) { value.None? && name in hidden }

  /** Fields hidden when null are not written. */
  function SaveText(names: seq<string>, fields: Fields, hidden: set<string>): string
    requires forall i :: 0 <= i < |names| ==> names[i] in fields
  {
    if names == [] then ""
    else
      var rest := SaveText(names[1..], fields, hidden);
      if Hides(names[0], fields[names[0]], hidden) then rest else FieldLine(names[0], fields[names[0]]) + rest
  }

  predicate IsComment(line: string)
    requires line != ""
  {
    AllSpace(line) || line[0] == '#'
  }

  function ParsedValue(text: string): Option<string> { if text == "None" then None else Some(text) }

  function LoadLine(fields: Fields, line: string): Loaded
    requires line != ""
  {
    if IsComment(line) then Loaded(fields, true)
    else
      var k := IndexOf(line, '=');
      if k == |line| then Loaded(fields, false)
      else Loaded(fields[Strip(line[..k]) := ParsedValue(Strip(line[k + 1..]))], true)
  }

  predicate AllLines(lines: seq<string>) { forall i :: 0 <= i < |lines| ==> IsLine(lines[i]) }

  /** Lines take effect one after another, up to the first that is invalid. */
  function LoadLines(fields: Fields, lines: seq<string>): Loaded
    requires AllLines(lines)
    decreases |lines|
  {
    if lines == [] then Loaded(fields, true)
    else
      assert IsLine(lines[0]);
      var r := LoadLine(fields, lines[0]);
      if r.ok then LoadLines(r.fields, lines[1..]) else r
  }

  function LoadText(fields: Fields, text: string): Loaded {
    LinesAreLines(text);
    LoadLines(fields, Lines(text))
  }

  class FieldListFile {
    const names: seq<string>
    const hidden: set<string>
    var fields: Fields

    constructor (names: seq<string>, hidden: set<string>, fields: Fields)
      ensures this.names == names && this.hidden == hidden && this.fields == fields
    {
      this.names, this.hidden, this.fields := names, hidden, fields;
    }

    method Save() returns (text: string)
      requires forall i :: 0 <= i < |names| ==> names[i] in fields
      ensures text == SaveText(names, fields, hidden)
    {
      text := "";
      for i := 0 to |names|
        invariant text + SaveText(names[i..], fields, hidden) == SaveText(names, fields, hidden)
      {
        assert names[i..][1..] == names[i + 1..];
        var value := fields[names[i]];
        if value.None? && names[i] in hidden {
          continue;
        }
        Associative(text, FieldLine(names[i], value), SaveText(names[i + 1..], fields, hidden));
        text := text + FieldLine(names[i], value);
      }
      assert text + "" == text;
    }

    method LoadOne(line: string) returns (ok: bool)
      requires line != ""
      modifies this`fields
      ensures Loaded(fields, ok) == LoadLine(old(fields), line)
    {
      hide IsSpace, Strip;
      if AllSpace(line) || line[0] == '#' {
        return true;
      }
      var k := IndexOf(line, '=');
      if k == |line| {
        return false;
      }
      var name, value := Strip(line[..k]), Strip(line[k + 1..]);
      fields := fields[name := if value == "None" then None else Some(value)];
      return true;
    }

    /** An invalid line raises an error; what earlier lines have set stays set. */
    method Load(text: string) returns (ok: bool)
      modifies this`fields
      ensures Loaded(fields, ok) == LoadText(old(fields), text)
    {
      hide LoadLine, IsLine;
      var lines := Lines(text);
      LinesAreLines(text);
      for i := 0 to |lines|
        invariant LoadLines(fields, lines[i..]) == LoadLines(old(fields), lines)
      {
        assert lines[i..][1..] == lines[i + 1..] && lines[i..][0] == lines[i];
        LineIsNotEmpty(lines[i]);
        ok := LoadOne(lines[i]);
        if !ok {
          return;
        }
      }
      return true;
    }
  }

  lemma LineIsNotEmpty(line: string)
    requires IsLine(line)
    ensures line != ""
  {
  }

  // ---------------------------------------------------------------- what a line does

  /** Blank lines and comments do nothing; any other line sets what is left of its first "=" to what
      is right of it, both stripped, and the text None to null; without a "=" it is an error. */
  lemma LinesMean(fields: Fields, line: string, name: string, value: string)
    requires line != ""
    ensures AllSpace(line) || line[0] == '#' ==> LoadLine(fields, line) == Loaded(fields, true)
    ensures !AllSpace(line) && line[0] != '#' && '=' !in line ==> LoadLine(fields, line) == Loaded(fields, false)
    ensures !AllSpace(line) && line[0] != '#' && line == name + ['='] + value && '=' !in name ==>
      LoadLine(fields, line) == Loaded(fields[Strip(name) := if Strip(value) == "None" then None else Some(Strip(value))], true)
  {
    hide IsSpace, Strip;
    if '=' !in line { NotFound(line, '='); }
    if line == name + ['='] + value && '=' !in name {
      IndexAfter(name, '=', value);
      assert line[..|name|] == name && line[|name| + 1..] == value;
    }
  }

  /** An invalid line ends the loading: what came before it is set, what comes after it is not read. */
  lemma {:induction false} InvalidLineEnds(fields: Fields, good: seq<string>, bad: string, rest: seq<string>)
    requires AllLines(good + [bad] + rest) && AllLines(good) && LoadLines(fields, good).ok
    requires !AllSpace(bad) && bad[0] != '#' && '=' !in bad
    ensures LoadLines(fields, good + [bad] + rest) == Loaded(LoadLines(fields, good).fields, false)
    decreases |good|
  {
    var all := good + [bad] + rest;
    if good == [] {
      assert all[0] == bad;
      LinesMean(fields, bad, "", "");
    } else {
      assert all[0] == good[0] && all[1..] == good[1..] + [bad] + rest;
      assert IsLine(good[0]);
      hide LoadLine, IsLine;
      InvalidLineEnds(LoadLine(fields, good[0]).fields, good[1..], bad, rest);
    }
  }

  // ---------------------------------------------------------------- save, then load

  /** A value that survives: no newline, no outer white space and not the word None. */
  predicate Storable(value: Option<string>) {
    value.Some? ==> '\n' !in value.value && Bare(value.value) && value.value != "None"
  }

  /** Names of fields, as the classes declare them. */
  predicate IsName(name: string) { name != "" && Bare(name) && '=' !in name && '\n' !in name && name[0] != '#' }

  lemma FieldLineParts(name: string, text: string, line: string)
    requires IsName(name) && line == name + ['='] + text + ['\n']
    ensures IndexOf(line, '=') == |name| && line[..|name|] == name && line[|name| + 1..] == text + ['\n']
    ensures !IsComment(line)
  {
    Associative(name + ['='], text, ['\n']);
    IndexAfter(name, '=', text + ['\n']);
    assert line[0] == name[0];
  }

  lemma StorablePrints(value: Option<string>)
    requires Storable(value)
    ensures var text := Printed(value); '\n' !in text && Strip(text + ['\n']) == text && ParsedValue(text) == value
  {
    hide Strip;
    if value.None? {
      assert Bare("None");
      hide Bare;
      StripNewline("None");
    } else {
      StripNewline(value.value);
    }
  }

  lemma FieldLineLoads(fields: Fields, name: string, value: Option<string>, line: string)
    requires IsName(name) && Storable(value) && line == FieldLine(name, value)
    ensures LoadLine(fields, line) == Loaded(fields[name := value], true)
  {
    StripNewline(name);
    hide IsSpace, Strip, IndexOf, IsComment, Storable, IsName, Printed, ParsedValue;
    StorablePrints(value);
    FieldLineParts(name, Printed(value), line);
  }

  /** A field at the front of a text is set before the rest is loaded. */
  lemma FirstFieldLoads(base: Fields, name: string, value: Option<string>, rest: string)
    requires IsName(name) && Storable(value)
    ensures LoadText(base, FieldLine(name, value) + rest) == LoadText(base[name := value], rest)
  {
    var line, start := FieldLine(name, value), name + ['='] + Printed(value);
    assert '\n' !in start;
    FirstLine(start, rest);
    FieldLineLoads(base, name, value, line);
    LinesAreLines(line + rest);
    LinesAreLines(rest);
    hide LoadLine, Lines;
    assert ([line] + Lines(rest))[1..] == Lines(rest);
  }

  ghost predicate Restored(names: seq<string>, fields: Fields, hidden: set<string>, base: Fields, r: Fields)
    requires forall n :: n in names ==> n in fields
  {
    && (forall n :: n in r ==> n in base || n in names)
    && (forall n :: n in base && n !in names ==> n in r && r[n] == base[n])
    && (forall n :: n in names && (fields[n].Some? || n !in hidden) ==> n in r && r[n] == fields[n])
    && (forall n :: n in names && fields[n].None? && n in hidden ==> (n in r <==> n in base) && (n in r ==> r[n] == base[n]))
  }

  lemma RestoredOneMore(name: string, rest: seq<string>, names: seq<string>, fields: Fields, hidden: set<string>,
                        base: Fields, r: Fields)
    requires names == [name] + rest && forall n :: n in names ==> n in fields
    requires !Hides(name, fields[name], hidden) && Restored(rest, fields, hidden, base[name := fields[name]], r)
    ensures Restored(names, fields, hidden, base, r)
  {
    assert forall n :: n in names <==> n == name || n in rest;
  }

  /** Loading what was saved into any object sets the saved fields and leaves the others. */
  lemma {:induction false} SavedFieldsLoad(names: seq<string>, fields: Fields, hidden: set<string>, base: Fields)
    requires forall n :: n in names ==> n in fields && IsName(n) && Storable(fields[n])
    ensures LoadText(base, SaveText(names, fields, hidden)).ok
    ensures Restored(names, fields, hidden, base, LoadText(base, SaveText(names, fields, hidden)).fields)
  {
    hide IsName, Storable, FieldLine;
    if names != [] {
      var name, rest := names[0], names[1..];
      assert names == [name] + rest;
      if Hides(name, fields[name], hidden) {
        SavedFieldsLoad(rest, fields, hidden, base);
        hide LoadText;
      } else {
        FirstFieldLoads(base, name, fields[name], SaveText(rest, fields, hidden));
        var base1 := base[name := fields[name]];
        SavedFieldsLoad(rest, fields, hidden, base1);
        hide LoadText, Restored;
        RestoredOneMore(name, rest, names, fields, hidden, base, LoadText(base1, SaveText(rest, fields, hidden)).fields);
      }
    }
  }

  ghost predicate AllStorable(fields: Fields) { forall n :: n in fields ==> Storable(fields[n]) }

  lemma LoadLineIsStorable(fields: Fields, line: string)
    requires IsLine(line) && AllStorable(fields)
    ensures AllStorable(LoadLine(fields, line).fields)
  {
    hide IsSpace, Strip, Bare;
    var k := IndexOf(line, '=');
    if k < |line| { StripIsBare(line[k + 1..]); }
  }

  lemma {:induction false} LoadedIsStorable(fields: Fields, lines: seq<string>)
    requires AllLines(lines) && AllStorable(fields)
    ensures AllStorable(LoadLines(fields, lines).fields)
    decreases |lines|
  {
    if lines != [] {
      assert IsLine(lines[0]);
      LoadLineIsStorable(fields, lines[0]);
      var r := LoadLine(fields, lines[0]);
      hide AllStorable, LoadLine;
      if r.ok { LoadedIsStorable(r.fields, lines[1..]); }
    }
  }

  /** Saving a record and loading it into a new object restores every field if and only if every
      value survives being written: no newline, no outer white space, not the text None. */
  lemma RecordRoundTrips(names: seq<string>, fields: Fields, hidden: set<string>, defaults: Fields)
    requires forall n :: n in names <==> n in fields
    requires forall n :: n in names ==> IsName(n)
    requires defaults.Keys == fields.Keys && AllStorable(defaults)
    requires forall n :: n in defaults && n in hidden ==> defaults[n].None?
    ensures LoadText(defaults, SaveText(names, fields, hidden)) == Loaded(fields, true) <==> AllStorable(fields)
  {
    var text := SaveText(names, fields, hidden);
    hide IsName, Storable;
    if AllStorable(fields) {
      SavedFieldsLoad(names, fields, hidden, defaults);
      var r := LoadText(defaults, text).fields;
      assert forall n :: n in r <==> n in fields;
      assert forall n :: n in fields ==> r[n] == fields[n];
      assert r == fields;
    }
    LinesAreLines(text);
    LoadedIsStorable(defaults, Lines(text));
  }

  // ---------------------------------------------------------------- lists of backup ids

  function JoinIds(ids: seq<string>): string
    requires ids != []
  {
    if |ids| == 1 then ids[0] else ids[0] + "," + JoinIds(ids[1..])
  }

  function SplitIds(s: string): (ids: seq<string>)
    ensures ids != []
    decreases |s|
  {
    var k := IndexOf(s, ',');
    if k == |s| then [s] else [s[..k]] + SplitIds(s[k + 1..])
  }

  function DumpBackupIds(ids: seq<string>): Option<string> { if ids == [] then None else Some(JoinIds(ids)) }

  function LoadBackupIds(s: Option<string>): Option<seq<string>> {
    if s.None? || s.value == "" then None else Some(SplitIds(s.value))
  }

  lemma {:induction false} NotFound(s: string, c: char)
    requires c !in s
    ensures IndexOf(s, c) == |s|
  {
    if s != "" { NotFound(s[1..], c); }
  }

  lemma {:induction false} SplitJoins(ids: seq<string>)
    requires ids != [] && forall i :: 0 <= i < |ids| ==> ',' !in ids[i]
    ensures SplitIds(JoinIds(ids)) == ids
  {
    if |ids| == 1 {
      NotFound(ids[0], ',');
    } else {
      var s, rest := JoinIds(ids), JoinIds(ids[1..]);
      IndexAfter(ids[0], ',', rest);
      assert s == ids[0] + [','] + rest;
      assert s[..|ids[0]|] == ids[0] && s[|ids[0]| + 1..] == rest;
      SplitJoins(ids[1..]);
    }
  }

  lemma {:induction false} SplitHasNoCommas(s: string)
    ensures forall i :: 0 <= i < |SplitIds(s)| ==> ',' !in SplitIds(s)[i]
    decreases |s|
  {
    var k := IndexOf(s, ',');
    forall i | 0 <= i < k ensures s[i] != ',' { assert s[i] == s[..k][i]; }
    if k < |s| { SplitHasNoCommas(s[k + 1..]); }
  }

  /** A list of ids is restored exactly when it is neither empty nor one empty id and no id has
      a comma; the empty list is loaded as no list at all. */
  lemma IdsRoundTrip(ids: seq<string>)
    ensures LoadBackupIds(DumpBackupIds(ids)) == Some(ids)
       <==> ids != [] && ids != [""] && forall i :: 0 <= i < |ids| ==> ',' !in ids[i]
    ensures LoadBackupIds(DumpBackupIds([])) == None
  {
    if ids != [] {
      SplitHasNoCommas(JoinIds(ids));
      if forall i :: 0 <= i < |ids| ==> ',' !in ids[i] {
        SplitJoins(ids);
      }
      if |ids| > 1 { assert JoinIds(ids)[|ids[0]|] == ','; }
    }
  }

  predicate IsColumn(s: string) { s != "" && NoSpace(s) }

  lemma {:induction false} JoinIsBare(ids: seq<string>)
    requires ids != [] && forall i :: 0 <= i < |ids| ==> IsColumn(ids[i])
    ensures IsColumn(JoinIds(ids))
  {
    if |ids| > 1 {
      JoinIsBare(ids[1..]);
      assert !IsSpace(',');
    }
  }

  /** A list of children, as backup ids are written, survives in a record's file. */
  lemma ChildrenSurvive(ids: seq<string>)
    requires ids != [] && ids != ["None"] && forall i :: 0 <= i < |ids| ==> IsColumn(ids[i]) && ',' !in ids[i]
    ensures Storable(DumpBackupIds(ids)) && LoadBackupIds(DumpBackupIds(ids)) == Some(ids)
  {
    JoinIsBare(ids);
    IdsRoundTrip(ids);
    var s := JoinIds(ids);
    assert IsSpace('\n');
    if |ids| > 1 { assert s[|ids[0]|] == ','; }
  }

  // ---------------------------------------------------------------- lines of the WAL catalogue

  /** An archived WAL file; size and time as printed. */
  datatype CatalogueEntry = CatalogueEntry(name: string, size: string, time: string, compression: Option<string>)

  /** Columns separated by tabs and ended by a newline. */
  function Row(columns: seq<string>): string
    requires columns != []
  {
    if |columns| == 1 then columns[0] + ['\n'] else columns[0] + ['\t'] + Row(columns[1..])
  }

  function ToXlogdbLine(w: CatalogueEntry): string { Row([w.name, w.size, w.time, Printed(w.compression)]) }

  /** The columns of a line: the stretches between white space. */
  function Columns(s: string): seq<string>
    decreases |s|
  {
    var l := LStrip(s);
    if l == "" then []
    else
      var k := FirstSpace(l);
      [l[..k]] + Columns(l[k..])
  }

  function FirstSpace(s: string): (k: nat)
    ensures k <= |s| && (k < |s| ==> IsSpace(s[k])) && (s != "" && !IsSpace(s[0]) ==> k > 0)
  {
    if s == "" || IsSpace(s[0]) then 0 else 1 + FirstSpace(s[1..])
  }

  function FromXlogdbLine(line: string): Result<CatalogueEntry, string> {
    var c := Columns(line);
    if |c| == 4 then Ok(CatalogueEntry(c[0], c[1], c[2], ParsedValue(c[3])))
    else if |c| == 3 then Ok(CatalogueEntry(c[0], c[1], c[2], None))
    else Err("cannot parse line")
  }

  lemma {:induction false} BeforeFirstSpace(s: string, i: nat)
    requires i < FirstSpace(s)
    ensures !IsSpace(s[i])
  {
    if i > 0 { BeforeFirstSpace(s[1..], i - 1); }
  }

  predicate AllColumns(columns: seq<string>) { forall i :: 0 <= i < |columns| ==> IsColumn(columns[i]) }

  lemma OneMoreColumn(column: string, columns: seq<string>)
    requires IsColumn(column) && AllColumns(columns)
    ensures AllColumns([column] + columns)
  {
  }

  lemma {:induction false} ColumnsAreColumns(s: string)
    ensures AllColumns(Columns(s))
    decreases |s|
  {
    hide IsSpace;
    var l := LStrip(s);
    if l != "" {
      var k := FirstSpace(l);
      forall i | 0 <= i < k ensures !IsSpace(l[..k][i]) { BeforeFirstSpace(l, i); }
      ColumnsAreColumns(l[k..]);
      OneMoreColumn(l[..k], Columns(l[k..]));
    }
  }

  lemma {:induction false} FirstSpaceAfter(column: string, space: char, rest: string)
    requires NoSpace(column) && IsSpace(space)
    ensures FirstSpace(column + [space] + rest) == |column|
  {
    hide IsSpace;
    var s := column + [space] + rest;
    if column != "" {
      assert s[0] == column[0];
      assert s[1..] == column[1..] + [space] + rest;
      FirstSpaceAfter(column[1..], space, rest);
    }
  }

  lemma SpaceFirst(space: char, rest: string)
    requires IsSpace(space)
    ensures Columns([space] + rest) == Columns(rest)
  {
    hide IsSpace;
    assert ([space] + rest)[1..] == rest;
    assert LStrip([space] + rest) == LStrip(rest);
  }

  lemma FirstColumn(column: string, space: char, rest: string)
    requires IsColumn(column) && IsSpace(space)
    ensures Columns(column + [space] + rest) == [column] + Columns(rest)
  {
    hide IsSpace;
    var s := column + [space] + rest;
    assert s[0] == column[0];
    FirstSpaceAfter(column, space, rest);
    assert s[..|column|] == column && s[|column|..] == [space] + rest;
    SpaceFirst(space, rest);
  }

  lemma LastColumn(column: string)
    requires IsColumn(column)
    ensures Columns(column + ['\n']) == [column]
  {
    assert column + ['\n'] + "" == column + ['\n'];
    FirstColumn(column, '\n', "");
    assert Columns("") == [];
  }

  lemma NextColumn(column: string, row: string, rest: seq<string>)
    requires IsColumn(column) && Columns(row) == rest
    ensures Columns(column + ['\t'] + row) == [column] + rest
  {
    FirstColumn(column, '\t', row);
  }

  lemma {:induction false} RowColumns(columns: seq<string>)
    requires columns != [] && AllColumns(columns)
    ensures Columns(Row(columns)) == columns
  {
    hide Columns, IsColumn;
    if |columns| == 1 {
      LastColumn(columns[0]);
    } else {
      var rest := columns[1..];
      assert AllColumns(rest) && IsColumn(columns[0]);
      RowColumns(rest);
      NextColumn(columns[0], Row(rest), rest);
      assert columns == [columns[0]] + rest;
    }
  }

  /** The form of a record that its line can carry. */
  predicate FitsOneLine(w: CatalogueEntry) {
    IsColumn(w.name) && (w.compression.Some? ==> IsColumn(w.compression.value) && w.compression.value != "None")
  }

  lemma ParsedFitsOneLine(line: string)
    requires FromXlogdbLine(line).Ok?
    ensures FitsOneLine(FromXlogdbLine(line).value)
  {
    ColumnsAreColumns(line);
    hide Columns, IsColumn;
    assert IsColumn(Columns(line)[0]);
    if |Columns(line)| == 4 { assert IsColumn(Columns(line)[3]); }
  }

  lemma FittingIsRead(w: CatalogueEntry)
    requires FitsOneLine(w) && IsColumn(w.size) && IsColumn(w.time)
    ensures FromXlogdbLine(ToXlogdbLine(w)) == Ok(w)
  {
    var last := Printed(w.compression);
    assert IsColumn("None");
    assert IsColumn(last) && ParsedValue(last) == w.compression;
    hide Columns, IsColumn, Row, Printed, ParsedValue, FitsOneLine;
    RowColumns([w.name, w.size, w.time, last]);
  }

  /** A catalogue line is read back as it was written if and only if the name is one column and
      the compression is none or one column other than None. */
  lemma XlogdbLineRoundTrips(w: CatalogueEntry)
    requires IsColumn(w.size) && IsColumn(w.time)
    ensures FromXlogdbLine(ToXlogdbLine(w)) == Ok(w) <==> FitsOneLine(w)
  {
    hide FromXlogdbLine, ToXlogdbLine, FitsOneLine, IsColumn;
    if FitsOneLine(w) {
      FittingIsRead(w);
    }
    if FromXlogdbLine(ToXlogdbLine(w)) == Ok(w) {
      ParsedFitsOneLine(ToXlogdbLine(w));
    }
  }

  /** A line of the old form, without the fourth column, is read as uncompressed. */
  lemma OldLinesAreUncompressed(name: string, size: string, time: string)
    requires IsColumn(name) && IsColumn(size) && IsColumn(time)
    ensures FromXlogdbLine(Row([name, size, time])) == Ok(CatalogueEntry(name, size, time, None))
  {
    RowColumns([name, size, time]);
  }
}
