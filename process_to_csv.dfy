/**
 * The normaliser of process_to_csv.py: `process_info` turns the free-text
 * `info` of a hiker record ("Last, First 'Trail'; ST, Country, TYPE") into a
 * ProcessedInfo of six optional fields, `ProcessedInfo.to_str` renders it
 * as six `|`-separated columns, and `single_read_and_write` writes one
 * `id|columns` line per record to the output file.
 */
module ProcessToCsv {
  import opened Wrappers
  import opened Text
  import opened Patterns

  /** ProcessedInfo: six optional fields, all None by default. */
  datatype ProcessedInfo = ProcessedInfo(
    lastName: Option<string>,
    firstName: Option<string>,
    trailName: Option<string>,
    state: Option<string>,
    country: Option<string>,
    hikeType: Option<string>)

  /** `ProcessedInfo()`: every field None. */
  const NoInfo: ProcessedInfo := ProcessedInfo(None, None, None, None, None, None)

  /** The placeholder the data uses for "no value", suppressed for the
      trail name and the state only. */
  const Placeholder: string := "'-"

  /** `v.strip() if v else None`: a group that did not take part, or took
      part empty, gives None; any other is stripped (and may strip to ""). */
  function Clean(v: Option<string>): (r: Option<string>)
    ensures r.None? <==> v.None? || v == Some("")
    ensures r.Some? ==> IsStripped(r.value) && |r.value| <= |v.value|
  {
    match v
    case None => None
    case Some(t) => if t == [] then None else Some(Strip(t))
  }

  /** `x if x != "'-" else None`. */
  function DropPlaceholder(v: Option<string>): (r: Option<string>)
    ensures v == Some(Placeholder) ==> r.None?
    ensures v != Some(Placeholder) ==> r == v
  {
    if v == Some(Placeholder) then None else v
  }

  /** Lines 62-69: on a name_pattern match, the three name fields are set
      from the cleaned groups (the trail name without the placeholder); on
      a mismatch nothing changes.  The origin fields are never touched. */
  function WithName(r: ProcessedInfo, m: Option<NameGroups>): (r': ProcessedInfo)
    ensures r'.state == r.state && r'.country == r.country && r'.hikeType == r.hikeType
    ensures m.None? ==> r' == r
    ensures r'.trailName != Some(Placeholder) || (m.None? && r.trailName == Some(Placeholder))
  {
    match m
    case None => r
    case Some(g) =>
      r.(lastName := Clean(Some(g.lastName)),
         firstName := Clean(Some(g.firstName)),
         trailName := DropPlaceholder(Clean(g.trailName)))
  }

  /** Lines 75-84: on an origin_pattern match, the three origin fields are
      set from the cleaned groups (the state without the placeholder); on a
      mismatch nothing changes.  The name fields are never touched. */
  function WithOrigin(r: ProcessedInfo, m: Option<OriginGroups>): (r': ProcessedInfo)
    ensures r'.lastName == r.lastName && r'.firstName == r.firstName && r'.trailName == r.trailName
    ensures m.None? ==> r' == r
    ensures r'.state != Some(Placeholder) || (m.None? && r.state == Some(Placeholder))
  {
    match m
    case None => r
    case Some(g) =>
      r.(state := DropPlaceholder(Clean(Some(g.state))),
         country := Clean(Some(g.country)),
         hikeType := Clean(g.hikeType))
  }

  /** `process_info`: split on `;`, match the name pattern on the first
      part, and the origin pattern on the second part only when there are
      exactly two parts.  Total: every text gives a ProcessedInfo. */
  function ProcessInfo(info: string): (r: ProcessedInfo)
    ensures r.trailName != Some(Placeholder) && r.state != Some(Placeholder)
  {
    var parts := Split(info, ';');
    var named := WithName(NoInfo, MatchName(parts[0]));
    if |parts| != 2 then named else WithOrigin(named, MatchOrigin(parts[1]))
  }

  /** `x if x else ""`: None and the empty string both render as "". */
  function Render(v: Option<string>): (t: string)
    ensures t == [] <==> v.None? || v == Some("")
    ensures v.Some? ==> t == v.value
  {
    match v
    case None => ""
    case Some(t) => t
  }

  /** The six columns of `to_str`, in order. */
  function Fields(r: ProcessedInfo): (fs: seq<string>)
    ensures |fs| == 6
  {
    [Render(r.lastName), Render(r.firstName), Render(r.trailName),
     Render(r.state), Render(r.country), Render(r.hikeType)]
  }

  /** `ProcessedInfo.to_str`: the six columns joined by `|`, which is the
      f-string of line 43. */
  function ToStr(r: ProcessedInfo): (t: string)
    ensures t == Render(r.lastName) + "|" + Render(r.firstName) + "|" + Render(r.trailName)
      + "|" + Render(r.state) + "|" + Render(r.country) + "|" + Render(r.hikeType)
  {
    JoinSix(Render(r.lastName), Render(r.firstName), Render(r.trailName),
            Render(r.state), Render(r.country), Render(r.hikeType), '|');
    Join(Fields(r), '|')
  }

  // ---------------------------------------------------------------------
  // process_info: how the text is cut into its two parts

  /** The origin fields are set only when the text has exactly one `;`. */
  lemma {:induction false} OriginNeedsOneSemicolon(info: string)
    ensures multiset(info)[';'] != 1 ==>
      var r := ProcessInfo(info);
      r.state.None? && r.country.None? && r.hikeType.None?
  {
    SplitLength(info, ';');
  }

  /** The empty text gives the all-None record. */
  lemma {:induction false} ProcessInfoEmpty()
    ensures ProcessInfo("") == NoInfo
  {
    assert Split("", ';') == [""];
    assert MatchName("").None?;
  }

  /** A text without `;` is a name part alone: only the name fields can be set. */
  lemma {:induction false} ProcessInfoNameOnly(name: string)
    requires ';' !in name
    ensures ProcessInfo(name) == WithName(NoInfo, MatchName(name))
  {
    assert IndexOf(name, ';') == |name|;
  }

  /** A text with exactly one `;` is a name part and an origin part, each
      matched by its own pattern. */
  lemma {:induction false} ProcessInfoParts(name: string, origin: string)
    requires ';' !in name && ';' !in origin
    ensures ProcessInfo(name + ";" + origin)
         == WithOrigin(WithName(NoInfo, MatchName(name)), MatchOrigin(origin))
  {
    SplitCons(name, ';', origin);
    assert IndexOf(origin, ';') == |origin|;
  }

  /** The name fields depend only on the text before the first `;`: what
      follows it, however many parts it has, does not change them. */
  lemma {:induction false} NameFieldsIgnoreRest(name: string, rest: string)
    requires ';' !in name
    ensures var r, r' := ProcessInfo(name + ";" + rest), ProcessInfo(name);
      r.lastName == r'.lastName && r.firstName == r'.firstName && r.trailName == r'.trailName
  {
    SplitCons(name, ';', rest);
    ProcessInfoNameOnly(name);
  }

  /** A name part that does not match leaves the name fields None but does
      not stop the origin part from being parsed: the origin fields are the
      same whatever the name part is. */
  lemma {:induction false} OriginFieldsIgnoreName(name: string, name': string, origin: string)
    requires ';' !in name && ';' !in name' && ';' !in origin
    ensures var r, r' := ProcessInfo(name + ";" + origin), ProcessInfo(name' + ";" + origin);
      r.state == r'.state && r.country == r'.country && r.hikeType == r'.hikeType
    ensures MatchName(name).None? ==>
      var r := ProcessInfo(name + ";" + origin);
      r.lastName.None? && r.firstName.None? && r.trailName.None?
  {
    ProcessInfoParts(name, origin);
    ProcessInfoParts(name', origin);
  }
  /** Lines 67 and 80: a trail name or a state that strips to the
      placeholder `'-` is recorded as None. */
  lemma {:induction false} PlaceholderDropped(info: string)
    ensures var parts, r := Split(info, ';'), ProcessInfo(info);
      (MatchName(parts[0]).Some? && Clean(MatchName(parts[0]).value.trailName) == Some(Placeholder))
      ==> r.trailName.None?
    ensures var parts, r := Split(info, ';'), ProcessInfo(info);
      (|parts| == 2 && MatchOrigin(parts[1]).Some?
       && Clean(Some(MatchOrigin(parts[1]).value.state)) == Some(Placeholder))
      ==> r.state.None?
  {
  }

  /** A text made of a name part and an origin part, each of the shape its
      pattern accepts, gives exactly their groups, cleaned, with the
      placeholder dropped from the trail name and the state. */
  lemma {:induction false} MatchedParts(name: string, origin: string, g: NameGroups, og: OriginGroups,
                                        gap1: string, sep: string, gap2: string, word: string, rest: string)
    requires ';' !in name && ';' !in origin
    requires NameShape(name, g)
    requires OriginLayout(origin, og, gap1, sep, gap2, word, rest)
    ensures ProcessInfo(name + ";" + origin)
         == ProcessedInfo(Clean(Some(g.lastName)), Clean(Some(g.firstName)),
                          DropPlaceholder(Clean(g.trailName)), DropPlaceholder(Clean(Some(og.state))),
                          Clean(Some(og.country)), Clean(og.hikeType))
  {
    ProcessInfoParts(name, origin);
    NameShapeMatches(name, g);
    OriginLayoutMatches(origin, og, gap1, sep, gap2, word, rest);
  }


  // ---------------------------------------------------------------------
  // process_info: what the fields hold

  /** The name fields are set exactly when name_pattern matches the first
      part; the last and first names are then both present, stripped, and
      free of the characters their groups exclude. */
  lemma {:induction false} NameFieldsMatch(info: string)
    ensures var r := ProcessInfo(info);
      (r.lastName.Some? <==> MatchName(Split(info, ';')[0]).Some?)
      && (r.firstName.Some? <==> r.lastName.Some?)
      && (r.lastName.None? ==> r.trailName.None?)
    ensures var r := ProcessInfo(info);
      r.lastName.Some? ==>
        IsStripped(r.lastName.value) && ',' !in r.lastName.value
        && IsStripped(r.firstName.value) && ';' !in r.firstName.value && '\'' !in r.firstName.value
  {
    var name := Split(info, ';')[0];
    MatchNameValid(name);
    NamedFields(MatchName(name));
  }

  /** The name fields set from valid groups. */
  lemma {:induction false} NamedFields(m: Option<NameGroups>)
    requires m.Some? ==> NameGroupsValid(m.value)
    ensures var r := WithName(NoInfo, m);
      (r.lastName.Some? <==> m.Some?) && (r.firstName.Some? <==> m.Some?)
      && (m.None? ==> r.trailName.None?)
    ensures var r := WithName(NoInfo, m);
      m.Some? ==>
        IsStripped(r.lastName.value) && ',' !in r.lastName.value
        && IsStripped(r.firstName.value) && ';' !in r.firstName.value && '\'' !in r.firstName.value
  {
    if m.Some? {
      var g := m.value;
      StripWithin(g.lastName, ',');
      StripWithin(g.firstName, ';');
      StripWithin(g.firstName, '\'');
    }
  }

  /** The origin fields are set only when there is exactly one `;` and the
      origin part has a comma.  Then the state, unless it is the
      placeholder, is the stripped text before that comma (None when that
      text is empty), the country holds no comma, and a hike type is a
      non-empty run of word characters. */
  lemma {:induction false} OriginFieldsMatch(info: string)
    ensures var parts, r := Split(info, ';'), ProcessInfo(info);
      (r.state.Some? || r.country.Some? || r.hikeType.Some?) ==> |parts| == 2 && ',' in parts[1]
    ensures var parts, r := Split(info, ';'), ProcessInfo(info);
      |parts| == 2 && ',' in parts[1] ==>
        r.state == DropPlaceholder(Clean(Some(parts[1][..IndexOf(parts[1], ',')])))
        && (r.country.Some? ==> ',' !in r.country.value)
        && (r.hikeType.Some? ==> |r.hikeType.value| > 0 && AllIn(r.hikeType.value, Word))
  {
    var parts := Split(info, ';');
    var named := WithName(NoInfo, MatchName(parts[0]));
    if |parts| == 2 {
      OriginFields(named, parts[1]);
    }
  }

  /** The origin fields set from an origin_pattern match on `o`. */
  lemma {:induction false} OriginFields(r0: ProcessedInfo, o: string)
    requires r0.state.None? && r0.country.None? && r0.hikeType.None?
    ensures var r := WithOrigin(r0, MatchOrigin(o));
      (r.state.Some? || r.country.Some? || r.hikeType.Some?) ==> ',' in o
    ensures var r := WithOrigin(r0, MatchOrigin(o));
      ',' in o ==>
        r.state == DropPlaceholder(Clean(Some(o[..IndexOf(o, ',')])))
        && (r.country.Some? ==> ',' !in r.country.value)
        && (r.hikeType.Some? ==> |r.hikeType.value| > 0 && AllIn(r.hikeType.value, Word))
  {
    MatchOriginFields(o);
    if ',' in o {
      var g := MatchOrigin(o).value;
      StripWithin(g.country, ',');
      CleanWord(g.hikeType);
    }
  }

  /** A hike type needs no stripping. */
  lemma {:induction false} CleanWord(v: Option<string>)
    requires v.Some? ==> |v.value| > 0 && AllIn(v.value, Word)
    ensures Clean(v) == v
  {
    if v.Some? {
      StripOfWord(v.value);
    }
  }

  /** A non-empty run of word characters has no whitespace to strip. */
  lemma {:induction false} StripOfWord(t: string)
    requires |t| > 0 && AllIn(t, Word)
    ensures Strip(t) == t
  {
    AllInRangeIff(t, 0, |t|, Word);
    assert t[0] == t[0];
    assert t[|t| - 1] == t[|t| - 1];
    assert "" + t + "" == t;
    StripSurrounded("", t, "");
  }

  /** An optional field that, when present, lacks `x`. */
  predicate Lacks(v: Option<string>, x: char) {
    v.None? || x !in v.value
  }

  /** Every field is cut out of the text: a character the text does not
      contain is in no field. */
  lemma {:induction false} FieldsWithin(info: string, x: char)
    requires x !in info
    ensures forall k :: 0 <= k < 6 ==> x !in Fields(ProcessInfo(info))[k]
  {
    ProcessedWithin(info, x);
    LacksFields(ProcessInfo(info), x);
  }

  lemma {:induction false} ProcessedWithin(info: string, x: char)
    requires x !in info
    ensures var r := ProcessInfo(info);
      Lacks(r.lastName, x) && Lacks(r.firstName, x) && Lacks(r.trailName, x)
      && Lacks(r.state, x) && Lacks(r.country, x) && Lacks(r.hikeType, x)
  {
    var parts := Split(info, ';');
    SplitNotIn(info, ';', x);
    NameWithin(parts[0], x);
    if |parts| == 2 {
      OriginWithin(WithName(NoInfo, MatchName(parts[0])), parts[1], x);
    }
  }

  lemma {:induction false} LacksFields(r: ProcessedInfo, x: char)
    requires Lacks(r.lastName, x) && Lacks(r.firstName, x) && Lacks(r.trailName, x)
    requires Lacks(r.state, x) && Lacks(r.country, x) && Lacks(r.hikeType, x)
    ensures forall k :: 0 <= k < 6 ==> x !in Fields(r)[k]
  {
  }

  lemma {:induction false} CleanWithin(v: Option<string>, x: char)
    requires Lacks(v, x)
    ensures Lacks(Clean(v), x) && Lacks(DropPlaceholder(Clean(v)), x)
  {
    if v.Some? && v.value != [] {
      StripWithin(v.value, x);
    }
  }

  lemma {:induction false} NameWithin(s: string, x: char)
    requires x !in s
    ensures var r := WithName(NoInfo, MatchName(s));
      Lacks(r.lastName, x) && Lacks(r.firstName, x) && Lacks(r.trailName, x)
  {
    MatchNameWithin(s, x);
    if MatchName(s).Some? {
      var g := MatchName(s).value;
      CleanWithin(Some(g.lastName), x);
      CleanWithin(Some(g.firstName), x);
      CleanWithin(g.trailName, x);
    }
  }

  lemma {:induction false} OriginWithin(r0: ProcessedInfo, s: string, x: char)
    requires x !in s
    requires r0.state.None? && r0.country.None? && r0.hikeType.None?
    ensures var r := WithOrigin(r0, MatchOrigin(s));
      Lacks(r.state, x) && Lacks(r.country, x) && Lacks(r.hikeType, x)
  {
    MatchOriginWithin(s, x);
    if MatchOrigin(s).Some? {
      var g := MatchOrigin(s).value;
      CleanWithin(Some(g.state), x);
      CleanWithin(Some(g.country), x);
      CleanWithin(g.hikeType, x);
    }
  }

  // ---------------------------------------------------------------------
  // to_str

  /** Six texts joined by `x`, written out. */
  lemma {:induction false} JoinSix(a: string, b: string, c: string, d: string, e: string, f: string, x: char)
    ensures Join([a, b, c, d, e, f], x) == a + [x] + b + [x] + c + [x] + d + [x] + e + [x] + f
  {
    var fs := [a, b, c, d, e, f];
    assert Join(fs[5..], x) == f;
    JoinCons(fs[4..], x);
    assert fs[4..][1..] == fs[5..];
    JoinCons(fs[3..], x);
    assert fs[3..][1..] == fs[4..];
    JoinCons(fs[2..], x);
    assert fs[2..][1..] == fs[3..];
    JoinCons(fs[1..], x);
    assert fs[1..][1..] == fs[2..];
    JoinCons(fs, x);
    assert fs[1..] == [b, c, d, e, f];
  }

  /** to_str has five separators of its own plus those inside the fields. */
  lemma {:induction false} ToStrSeparators(r: ProcessedInfo)
    ensures var fs := Fields(r);
      multiset(ToStr(r))['|'] == 5 + multiset(fs[0])['|'] + multiset(fs[1])['|']
        + multiset(fs[2])['|'] + multiset(fs[3])['|'] + multiset(fs[4])['|'] + multiset(fs[5])['|']
  {
  }

  /** When no field contains `|`, splitting the rendered line on `|` gives
      back exactly the six fields. */
  lemma {:induction false} ToStrSplit(r: ProcessedInfo)
    requires forall k :: 0 <= k < 6 ==> '|' !in Fields(r)[k]
    ensures Split(ToStr(r), '|') == Fields(r)
  {
    SplitJoin(Fields(r), '|');
  }

  /** For a text without `|`, the rendered record always has six columns,
      which are the fields of process_info's result. */
  lemma {:induction false} ProcessedColumns(info: string)
    requires '|' !in info
    ensures Split(ToStr(ProcessInfo(info)), '|') == Fields(ProcessInfo(info))
  {
    FieldsWithin(info, '|');
    ToStrSplit(ProcessInfo(info));
  }

  // ---------------------------------------------------------------------
  // single_read_and_write

  /** One input record, after `json.loads`: its id (as rendered by the
      f-string) and its info text. */
  datatype Entry = Entry(id: string, info: string)

  /** The line written for one record, without its newline.  A record with
      no newline in its id or its info gives a line with no newline. */
  function RowText(e: Entry): (t: string)
    ensures '\n' !in e.id && '\n' !in e.info ==> '\n' !in t
  {
    var t := e.id + "|" + ToStr(ProcessInfo(e.info));
    if '\n' in e.info then t
    else
      FieldsWithin(e.info, '\n');
      JoinNotIn(Fields(ProcessInfo(e.info)), '|', '\n');
      t
  }

  /** `f` applied to every element, in order. */
  function Map<A, B>(f: A -> B, xs: seq<A>): (ys: seq<B>)
    ensures |ys| == |xs|
    ensures forall k :: 0 <= k < |xs| ==> ys[k] == f(xs[k])
  {
    if xs == [] then [] else [f(xs[0])] + Map(f, xs[1..])
  }

  lemma {:induction false} MapAppend<A, B>(f: A -> B, a: seq<A>, b: seq<A>)
    ensures Map(f, a + b) == Map(f, a) + Map(f, b)
  {
    assert forall k :: 0 <= k < |a + b| ==> Map(f, a + b)[k] == (Map(f, a) + Map(f, b))[k];
  }

  /** The lines of a sequence of records, in order: line k is record k's. */
  function RowTexts(entries: seq<Entry>): (ts: seq<string>)
    ensures |ts| == |entries|
    ensures forall k :: 0 <= k < |entries| ==> ts[k] == RowText(entries[k])
  {
    Map(RowText, entries)
  }

  /** Text made of the given lines, each followed by a newline: empty for
      no lines, and otherwise ending in a newline. */
  function Lines(ts: seq<string>): (r: string)
    ensures ts == [] <==> r == []
    ensures ts != [] ==> r[|r| - 1] == '\n'
  {
    if ts == [] then "" else ts[0] + "\n" + Lines(ts[1..])
  }

  /** Everything written for a sequence of records, in order: nothing for
      no records, and otherwise text that ends with a record's newline. */
  function Rows(entries: seq<Entry>): (r: string)
    ensures entries == [] <==> r == []
    ensures entries != [] ==> r[|r| - 1] == '\n'
  {
    Lines(RowTexts(entries))
  }

  lemma {:induction false} LinesAppend(a: seq<string>, b: seq<string>)
    ensures Lines(a + b) == Lines(a) + Lines(b)
    decreases |a|
  {
    if a == [] {
      assert a + b == b;
    } else {
      assert (a + b)[1..] == a[1..] + b;
      LinesAppend(a[1..], b);
    }
  }

  lemma {:induction false} RowTextsAppend(a: seq<Entry>, b: seq<Entry>)
    ensures RowTexts(a + b) == RowTexts(a) + RowTexts(b)
  {
    MapAppend(RowText, a, b);
  }


  /** Writing two batches of records writes the rows of the first, then
      those of the second. */
  lemma {:induction false} RowsAppend(a: seq<Entry>, b: seq<Entry>)
    ensures Rows(a + b) == Rows(a) + Rows(b)
  {
    RowTextsAppend(a, b);
    LinesAppend(RowTexts(a), RowTexts(b));
  }

  /** One record more adds exactly its line at the end. */
  lemma {:induction false} RowsSnoc(entries: seq<Entry>, e: Entry)
    ensures Rows(entries + [e]) == Rows(entries) + (RowText(e) + "\n")
  {
    RowsAppend(entries, [e]);
    var t := RowText(e);
    assert RowTexts([e]) == [t];
    assert [t][1..] == [];
    assert Lines([t]) == t + "\n";
  }

  /** One line per record, in input order: read back line by line, the
      output is exactly the records' lines, the k-th line being record k's
      (and the empty tail after the last newline). */
  lemma {:induction false} RowsLines(entries: seq<Entry>)
    requires forall k :: 0 <= k < |entries| ==> '\n' !in entries[k].id && '\n' !in entries[k].info
    ensures Split(Rows(entries), '\n') == RowTexts(entries) + [""]
    ensures forall k :: 0 <= k < |entries| ==> Split(Rows(entries), '\n')[k] == RowText(entries[k])
  {
    var ts := RowTexts(entries);
    assert forall k :: 0 <= k < |entries| ==> '\n' !in ts[k];
    LinesSplit(ts);
  }


  /** The first line, its newline, then the others. */
  lemma {:induction false} LinesCons(ts: seq<string>)
    requires |ts| > 0
    ensures Lines(ts) == ts[0] + ['\n'] + Lines(ts[1..])
  {
  }

  /** Newline-free lines, each followed by a newline, split back into
      those lines and an empty tail. */
  lemma {:induction false} LinesSplit(ts: seq<string>)
    requires forall k :: 0 <= k < |ts| ==> '\n' !in ts[k]
    ensures Split(Lines(ts), '\n') == ts + [""]
    decreases |ts|
  {
    if ts == [] {
      assert IndexOf("", '\n') == 0;
    } else {
      LinesSplit(ts[1..]);
      LinesCons(ts);
      SplitCons(ts[0], '\n', Lines(ts[1..]));
      assert [ts[0]] + (ts[1..] + [""]) == ts + [""];
    }
  }

  /** Each line is the record's id followed by the six columns, when
      neither the id nor the info holds a `|`. */
  lemma {:induction false} RowColumns(e: Entry)
    requires '|' !in e.id && '|' !in e.info
    ensures Split(RowText(e), '|') == [e.id] + Fields(ProcessInfo(e.info))
  {
    ProcessedColumns(e.info);
    assert RowText(e) == e.id + ['|'] + ToStr(ProcessInfo(e.info));
    SplitCons(e.id, '|', ToStr(ProcessInfo(e.info)));
  }

  /** The output file: the text written to it so far. */
  class OutputFile {
    var contents: string

    constructor ()
      ensures contents == []
    {
      contents := [];
    }

    /** `output_file.write(text)`. */
    method Write(text: string)
      modifies this
      ensures contents == old(contents) + text
    {
      contents := contents + text;
    }
  }

  /** The record loop of `single_read_and_write` (lines 104-114): for each
      record, process its info and write `id|to_str()` and a newline. */
  method SingleReadAndWrite(output: OutputFile, entries: seq<Entry>)
    modifies output
    ensures output.contents == old(output.contents) + Rows(entries)
  {
    for i := 0 to |entries|
      invariant output.contents == old(output.contents) + Rows(entries[..i])
    {
      var entry := entries[i];
      var processed := ProcessInfo(entry.info);
      var line := ToStr(processed);
      ghost var before := output.contents;
      output.Write(entry.id + "|" + line + "\n");
      RowsStep(old(output.contents), entries, i, before, output.contents);
    }
    assert entries[..|entries|] == entries;
  }

  /** One turn of the record loop: writing record i's line after the rows
      of the records before it gives the rows up to and including it. */
  lemma {:induction false} RowsStep(start: string, entries: seq<Entry>, i: nat, before: string, after: string)
    requires i < |entries| && before == start + Rows(entries[..i])
    requires after == before + (entries[i].id + "|" + ToStr(ProcessInfo(entries[i].info)) + "\n")
    ensures after == start + Rows(entries[..i + 1])
  {
    var e := entries[i];
    var done, line := Rows(entries[..i]), RowText(e) + "\n";
    assert e.id + "|" + ToStr(ProcessInfo(e.info)) + "\n" == line;
    assert after == (start + done) + line;
    Associative(start, done, line);
    PrefixSnoc(entries, i);
    RowsSnoc(entries[..i], e);
    assert done + line == Rows(entries[..i + 1]);
  }

  /** Two sequence facts the loop steps need, stated apart so that they are
      proved without the definitions of the rows in view. */
  lemma {:induction false} PrefixSnoc<T>(s: seq<T>, i: nat)
    requires i < |s|
    ensures s[..i + 1] == s[..i] + [s[i]]
  {
  }

  lemma {:induction false} Associative(a: string, b: string, c: string)
    ensures (a + b) + c == a + (b + c)
  {
  }

  /** All the records of several input files, file after file. */
  function Concat(files: seq<seq<Entry>>): seq<Entry> {
    if files == [] then [] else files[0] + Concat(files[1..])
  }

  lemma {:induction false} ConcatSnoc(files: seq<seq<Entry>>, f: seq<Entry>)
    ensures Concat(files + [f]) == Concat(files) + f
    decreases |files|
  {
    if files == [] {
      assert [f][1..] == [];
    } else {
      assert (files + [f])[1..] == files[1..] + [f];
      ConcatSnoc(files[1..], f);
    }
  }

  /** The rows of one more file follow those of the files before it. */
  lemma {:induction false} RowsConcatSnoc(files: seq<seq<Entry>>, f: seq<Entry>)
    ensures Rows(Concat(files + [f])) == Rows(Concat(files)) + Rows(f)
  {
    ConcatSnoc(files, f);
    RowsAppend(Concat(files), f);
  }

  /** One turn of the file loop. */
  lemma {:induction false} FilesStep(start: string, files: seq<seq<Entry>>, i: nat, before: string, after: string)
    requires i < |files| && before == start + Rows(Concat(files[..i]))
    requires after == before + Rows(files[i])
    ensures after == start + Rows(Concat(files[..i + 1]))
  {
    PrefixSnoc(files, i);
    RowsConcatSnoc(files[..i], files[i]);
    Associative(start, Rows(Concat(files[..i])), Rows(files[i]));
  }

  /** `read_and_write_to_output_file` (lines 120-126), with the files the
      glob finds given as their records: every file's rows, in turn. */
  method ReadAndWriteToOutputFile(output: OutputFile, files: seq<seq<Entry>>)
    modifies output
    ensures output.contents == old(output.contents) + Rows(Concat(files))
  {
    for i := 0 to |files|
      invariant output.contents == old(output.contents) + Rows(Concat(files[..i]))
    {
      ghost var before := output.contents;
      SingleReadAndWrite(output, files[i]);
      FilesStep(old(output.contents), files, i, before, output.contents);
    }
    assert files[..|files|] == files;
  }
}
