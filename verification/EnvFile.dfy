/** The env-file reader and in-place rewriter of `scripts/native_infra.py`.

    The file is its decoded text, or None when it does not exist. */
module EnvFile {
  import opened Sequences
  import opened Wrappers
  import opened PythonText
  import opened Ordering

  // ------------------------------------------------------ one line at a time

  /** What one line contributes to the parsed values: at most one entry. */
  function Entry(raw: string): map<string, string> {
    var line := Strip(raw);
    if line == "" || line[0] == '#' || '=' !in line then map[]
    else
      var k := IndexOf(line, '=');
      map[Strip(line[..k]) := Strip(line[k + 1..])]
  }

  /** The name that the rewriter sees on a line. It looks at the untrimmed line,
      the parser at the trimmed one; KeyAgrees says they see the same name. */
  function NameOn(line: string): Option<string> {
    var left := LStrip(line);
    if '=' in line && !(left != "" && left[0] == '#') then
      Some(Strip(line[..IndexOf(line, '=')]))
    else
      None
  }

  function Assignment(name: string, value: string): string {
    name + "=" + value
  }

  predicate Names(line: string, updates: map<string, string>) {
    NameOn(line).Some? && NameOn(line).value in updates
  }

  function RewriteLine(line: string, updates: map<string, string>): string {
    if Names(line, updates) then Assignment(NameOn(line).value, updates[NameOn(line).value]) else line
  }

  // ------------------------------------------------------- overriding entries

  /** `base` overridden by `top`. */
  function Override<K, V>(base: map<K, V>, top: map<K, V>): map<K, V> {
    base + top
  }

  lemma OverrideEmpty<K, V>(m: map<K, V>)
    ensures Override(m, map[]) == m && Override(map[], m) == m
  {
  }

  lemma OverrideOne<K, V>(m: map<K, V>, k: K, v: V)
    ensures m[k := v] == Override(m, map[k := v])
  {
  }

  lemma OverrideAssociates<K, V>(a: map<K, V>, b: map<K, V>, c: map<K, V>)
    ensures Override(a, Override(b, c)) == Override(Override(a, b), c)
  {
  }

  lemma OverrideKeys<K, V>(a: map<K, V>, b: map<K, V>)
    ensures Override(a, b).Keys == a.Keys + b.Keys
  {
  }

  /** The part of `m` on the given keys. */
  ghost function Restrict<K, V>(m: map<K, V>, keys: set<K>): map<K, V> {
    map k | k in m && k in keys :: m[k]
  }

  lemma OverrideFirst<K, V>(entry: map<K, V>, rest: map<K, V>, updates: map<K, V>, seen: set<K>, name: K)
    requires entry.Keys == {name} && name in updates && seen == rest.Keys * updates.Keys
    ensures Override(map[name := updates[name]], Override(rest, Restrict(updates, seen)))
         == Override(Override(entry, rest), Restrict(updates, {name} + seen))
  {
  }

  lemma RestrictNone<K, V>(m: map<K, V>)
    ensures Restrict(m, {}) == map[]
  {
  }

  lemma RestrictCons<K, V>(m: map<K, V>, k: K, keys: set<K>)
    requires k in m
    ensures Override(map[k := m[k]], Restrict(m, keys)) == Restrict(m, {k} + keys)
  {
  }

  lemma RestrictAll<K, V>(m: map<K, V>, updates: map<K, V>, keys: set<K>)
    ensures Override(Override(m, Restrict(updates, keys)), Restrict(updates, updates.Keys - keys)) == Override(m, updates)
  {
  }

  // ------------------------------------------------------------- whole files

  function Lines(content: Option<string>): (lines: seq<string>)
    ensures forall i :: 0 <= i < |lines| ==> OneLine(lines[i])
  {
    match content
    case None => []
    case Some(text) => SplitLines(UniversalNewlines(text))
  }

  /** Later lines win. */
  function ParseLines(lines: seq<string>): map<string, string> {
    if lines == [] then map[] else Override(Entry(lines[0]), ParseLines(lines[1..]))
  }

  function Parsed(content: Option<string>): map<string, string> {
    ParseLines(Lines(content))
  }

  function RewriteLines(lines: seq<string>, updates: map<string, string>): seq<string> {
    if lines == [] then [] else [RewriteLine(lines[0], updates)] + RewriteLines(lines[1..], updates)
  }

  function Seen(lines: seq<string>, updates: map<string, string>): set<string> {
    if lines == [] then {}
    else (if Names(lines[0], updates) then {NameOn(lines[0]).value} else {}) + Seen(lines[1..], updates)
  }

  predicate AllIn(names: seq<string>, updates: map<string, string>) {
    forall i :: 0 <= i < |names| ==> names[i] in updates
  }

  function Assignments(names: seq<string>, updates: map<string, string>): seq<string>
    requires AllIn(names, updates)
  {
    if names == [] then []
    else [Assignment(names[0], updates[names[0]])] + Assignments(names[1..], updates)
  }

  /** The updated names that no line carries, sorted. */
  ghost function Missing(lines: seq<string>, updates: map<string, string>): (names: seq<string>)
    ensures SortedListing(StringLess, updates.Keys - Seen(lines, updates), names)
    ensures AllIn(names, updates)
  {
    StringLessStrictTotal();
    var names := Sorted(StringLess, updates.Keys - Seen(lines, updates));
    assert forall i :: 0 <= i < |names| ==> names[i] in Elements(names);
    names
  }

  /** The lines that the rewriter joins: rewritten lines, then the names that
      no line carried, sorted. */
  ghost function NewLines(lines: seq<string>, updates: map<string, string>): seq<string> {
    RewriteLines(lines, updates) + Assignments(Missing(lines, updates), updates)
  }

  /** The text that the rewriter leaves in the file. */
  ghost function Updated(content: Option<string>, updates: map<string, string>): string {
    RStrip(Join(NewLines(Lines(content), updates))) + "\n"
  }

  lemma AppendAssociates<T>(a: seq<T>, x: T, b: seq<T>)
    ensures a + ([x] + b) == (a + [x]) + b
  {
  }

  method SortNames(names: set<string>) returns (sorted: seq<string>)
    ensures SortedListing(StringLess, names, sorted)
    ensures forall name :: name in sorted ==> name in names
  {
    StringLessStrictTotal();
    sorted := SortSet(StringLess, names);
    assert forall name :: name in sorted ==> name in Elements(sorted);
  }

  /** The second loop of `update_env_file`: one assignment for each updated name
      that was not seen, in the order of the names. */
  method AppendMissing(rewritten: seq<string>, seen: set<string>, updates: map<string, string>)
    returns (lines: seq<string>, missing: seq<string>)
    ensures SortedListing(StringLess, updates.Keys - seen, missing) && AllIn(missing, updates)
    ensures lines == rewritten + Assignments(missing, updates)
  {
    hide SortedListing;
    missing := SortNames(updates.Keys - seen);
    forall i | 0 <= i < |missing|
      ensures missing[i] in updates
    {
      assert missing[i] in missing;
    }
    lines := rewritten;
    var i := 0;
    while i < |missing|
      invariant 0 <= i <= |missing|
      invariant lines + Assignments(missing[i..], updates) == rewritten + Assignments(missing, updates)
    {
      assert missing[i..][1..] == missing[i + 1..];
      ghost var before := lines;
      lines := lines + [Assignment(missing[i], updates[missing[i]])];
      AppendAssociates(before, Assignment(missing[i], updates[missing[i]]), Assignments(missing[i + 1..], updates));
      i := i + 1;
    }
  }

  class File {
    var content: Option<string>

    constructor (initial: Option<string>)
      ensures content == initial
    {
      content := initial;
    }

    /** `parse_env` */
    method ParseEnv() returns (values: map<string, string>)
      ensures values == Parsed(content)
    {
      hide Override, LStrip, RStrip, SplitLines;
      values := map[];
      if content.None? {
        return;
      }
      OverrideEmpty(Parsed(content));
      var lines := Lines(content);
      var i := 0;
      while i < |lines|
        invariant 0 <= i <= |lines|
        invariant Override(values, ParseLines(lines[i..])) == ParseLines(lines)
      {
        var line := Strip(lines[i]);
        ghost var before := values;
        if line == "" || line[0] == '#' || '=' !in line {
          OverrideEmpty(values);
        } else {
          var k := IndexOf(line, '=');
          var name, value := Strip(line[..k]), Strip(line[k + 1..]);
          values := values[name := value];
          OverrideOne(before, name, value);
        }
        assert lines[i..][1..] == lines[i + 1..];
        OverrideAssociates(before, Entry(lines[i]), ParseLines(lines[i + 1..]));
        i := i + 1;
      }
      OverrideEmpty(values);
    }

    /** `update_env_file` */
    method UpdateEnvFile(updates: map<string, string>)
      modifies this
      ensures content == Some(Updated(old(content), updates))
    {
      hide NameOn, Assignment;
      var source := Lines(content);
      var seen: set<string> := {};
      var lines: seq<string> := [];
      var i := 0;
      while i < |source|
        invariant 0 <= i <= |source|
        invariant lines + RewriteLines(source[i..], updates) == RewriteLines(source, updates)
        invariant seen + Seen(source[i..], updates) == Seen(source, updates)
      {
        var line := source[i];
        assert source[i..][1..] == source[i + 1..];
        ghost var before := lines;
        var name := NameOn(line);
        if name.Some? && name.value in updates {
          lines := lines + [Assignment(name.value, updates[name.value])];
          seen := seen + {name.value};
        } else {
          lines := lines + [line];
        }
        AppendAssociates(before, RewriteLine(line, updates), RewriteLines(source[i + 1..], updates));
        i := i + 1;
      }
      assert lines == RewriteLines(source, updates);
      var missing;
      lines, missing := AppendMissing(lines, seen, updates);
      StringLessStrictTotal();
      SortedListingUnique(StringLess, updates.Keys - seen, missing, Missing(source, updates));
      content := Some(RStrip(Join(lines)) + "\n");
    }
  }

  // ------------------------------------------------- the updates that survive

  /** Trimmed, on one line, without '=' and not starting a comment. */
  predicate WellFormedName(name: string) {
    Trimmed(name) && OneLine(name) && '=' !in name && (name == "" || name[0] != '#')
  }

  predicate WellFormedValue(value: string) {
    Trimmed(value) && OneLine(value)
  }

  predicate WellFormed(updates: map<string, string>) {
    forall name :: name in updates ==> WellFormedName(name) && WellFormedValue(updates[name])
  }

  lemma OneLineParts(a: string, b: string, c: string)
    requires OneLine(a + b + c)
    ensures OneLine(b)
  {
    var s := a + b + c;
    forall i | 0 <= i < |b| ensures !IsBreak(b[i]) {
      assert s[|a| + i] == b[i];
    }
  }

  /** Where the first '=' stands does not depend on white space around it. */
  lemma FirstEquals(left: string, line: string, right: string)
    requires Blank(left) && Blank(right)
    ensures '=' in left + line + right <==> '=' in line
    ensures '=' in line ==> IndexOf(left + line + right, '=') == |left| + IndexOf(line, '=')
    ensures '=' in line ==> (left + line + right)[..|left| + IndexOf(line, '=')] == left + line[..IndexOf(line, '=')]
  {
    var raw := left + line + right;
    assert forall i :: 0 <= i < |left| ==> raw[i] == left[i] && left[i] != '=';
    assert forall i :: 0 <= i < |right| ==> right[i] != '=';
    if '=' in line {
      var k := IndexOf(line, '=');
      assert raw[|left| + k] == '=';
      assert raw[..|left| + k] == left + line[..k];
      IndexOfUnique(raw, '=', |left| + k);
    }
  }

  /** Parser and rewriter see the same name on every line. */
  lemma KeyAgrees(raw: string)
    ensures Entry(raw).Keys == (match NameOn(raw) case None => {} case Some(name) => {name})
  {
    hide IsSpace, LStrip, RStrip, IndexOf;
    var left, right := StripSplits(raw);
    var line := Strip(raw);
    FirstEquals(left, line, right);
    if '=' in line {
      var k := IndexOf(line, '=');
      assert left + line[..k] + "" == left + line[..k];
      StripPad(left, line[..k], "");
    }
  }

  lemma StripOneLine(s: string)
    requires OneLine(s)
    ensures OneLine(Strip(s)) && Trimmed(Strip(s))
  {
    var left, right := StripSplits(s);
    OneLineParts(left, Strip(s), right);
  }

  lemma NamePart(line: string, k: nat)
    requires Trimmed(line) && OneLine(line) && line != "" && line[0] != '#'
    requires k < |line| && '=' !in line[..k]
    ensures WellFormedName(Strip(line[..k]))
  {
    StripOneLine(line[..k]);
    var left, right := StripSplits(line[..k]);
    var name := Strip(line[..k]);
    assert forall i :: 0 <= i < |name| ==> line[..k][|left| + i] == name[i];
    if name != "" {
      assert line[0] == (left + name + right)[0];
    }
  }

  /** Every entry the parser produces is well formed, whatever the line. */
  lemma EntryWellFormed(raw: string)
    requires OneLine(raw)
    ensures WellFormed(Entry(raw))
  {
    StripOneLine(raw);
    var line := Strip(raw);
    if line != "" && line[0] != '#' && '=' in line {
      var k := IndexOf(line, '=');
      NamePart(line, k);
      StripOneLine(line[k + 1..]);
    }
  }

  lemma {:induction false} ParseLinesWellFormed(lines: seq<string>)
    requires forall i :: 0 <= i < |lines| ==> OneLine(lines[i])
    ensures WellFormed(ParseLines(lines))
  {
    if lines != [] {
      EntryWellFormed(lines[0]);
      ParseLinesWellFormed(lines[1..]);
    }
  }

  /** A written assignment is read back as exactly that entry. */
  lemma AssignmentEntry(name: string, value: string)
    requires WellFormedName(name) && WellFormedValue(value)
    ensures Assignment(name, value) == name + "=" + value
    ensures Entry(Assignment(name, value)) == map[name := value]
    ensures NameOn(Assignment(name, value)) == Some(name)
    ensures OneLine(Assignment(name, value)) && !Blank(Assignment(name, value))
    ensures RStrip(Assignment(name, value)) == Assignment(name, value)
  {
    var line := Assignment(name, value);
    assert line[|name|] == '=';
    assert Trimmed(line) by {
      assert line[0] == if name == "" then '=' else name[0];
      assert line[|line| - 1] == if value == "" then '=' else value[|value| - 1];
    }
    StripTrimmed(line);
    StripTrimmed(name);
    StripTrimmed(value);
    assert line[..|name|] == name && line[|name| + 1..] == value;
    IndexOfUnique(line, '=', |name|);
    KeyAgrees(line);
    assert line[0] == if name == "" then '=' else name[0];
  }

  /** What rewriting does to one line, seen through the parser. */
  lemma RewrittenLine(line: string, updates: map<string, string>)
    requires WellFormed(updates)
    ensures NameOn(RewriteLine(line, updates)) == NameOn(line)
    ensures OneLine(line) ==> OneLine(RewriteLine(line, updates))
    ensures RewriteLine(RewriteLine(line, updates), updates) == RewriteLine(line, updates)
    ensures !Names(line, updates) ==> Entry(line).Keys !! updates.Keys && RewriteLine(line, updates) == line
    ensures Names(line, updates) ==>
      && Entry(line).Keys == {NameOn(line).value}
      && Entry(RewriteLine(line, updates)) == map[NameOn(line).value := updates[NameOn(line).value]]
  {
    KeyAgrees(line);
    if Names(line, updates) {
      AssignmentEntry(NameOn(line).value, updates[NameOn(line).value]);
    }
  }

  // --------------------------------------------------- what rewriting changes

  lemma {:induction false} ParseConcat(a: seq<string>, b: seq<string>)
    ensures ParseLines(a + b) == Override(ParseLines(a), ParseLines(b))
  {
    hide Override, Entry;
    if a == [] {
      assert a + b == b;
      OverrideEmpty(ParseLines(b));
    } else {
      assert (a + b)[1..] == a[1..] + b;
      ParseConcat(a[1..], b);
      OverrideAssociates(Entry(a[0]), ParseLines(a[1..]), ParseLines(b));
    }
  }

  lemma {:induction false} RewriteLinesParse(lines: seq<string>, updates: map<string, string>)
    requires WellFormed(updates)
    ensures ParseLines(RewriteLines(lines, updates)) == Override(ParseLines(lines), Restrict(updates, Seen(lines, updates)))
    ensures Seen(lines, updates) == ParseLines(lines).Keys * updates.Keys
  {
    hide Entry, NameOn, RewriteLine, Override, Restrict;
    if lines != [] {
      OverrideKeys(Entry(lines[0]), ParseLines(lines[1..]));
      RewriteLinesParse(lines[1..], updates);
      RewrittenLine(lines[0], updates);
      var rest, seen := ParseLines(lines[1..]), Seen(lines[1..], updates);
      assert RewriteLines(lines, updates)[1..] == RewriteLines(lines[1..], updates);
      if Names(lines[0], updates) {
        var name := NameOn(lines[0]).value;
        OverrideFirst(Entry(lines[0]), rest, updates, seen, name);
      } else {
        assert Seen(lines, updates) == seen;
        OverrideAssociates(Entry(lines[0]), rest, Restrict(updates, seen));
      }
    } else {
      RestrictNone(updates);
      OverrideEmpty<string, string>(map[]);
    }
  }

  lemma {:induction false} AssignmentsParse(names: seq<string>, updates: map<string, string>)
    requires WellFormed(updates) && AllIn(names, updates)
    ensures ParseLines(Assignments(names, updates)) == Restrict(updates, Elements(names))
    ensures forall i :: 0 <= i < |Assignments(names, updates)| ==> OneLine(Assignments(names, updates)[i])
  {
    hide Entry, NameOn, Assignment, Override, Restrict;
    RestrictNone(updates);
    ElementsEmpty(names);
    if names != [] {
      AssignmentsParse(names[1..], updates);
      AssignmentEntry(names[0], updates[names[0]]);
      ElementsConcat([names[0]], names[1..]);
      assert names == [names[0]] + names[1..];
      assert Elements(names) == {names[0]} + Elements(names[1..]);
      RestrictCons(updates, names[0], Elements(names[1..]));
      assert Assignments(names, updates)[1..] == Assignments(names[1..], updates);
    }
  }

  lemma {:induction false} RewriteLinesOneLine(lines: seq<string>, updates: map<string, string>)
    requires WellFormed(updates)
    requires forall i :: 0 <= i < |lines| ==> OneLine(lines[i])
    ensures |RewriteLines(lines, updates)| == |lines|
    ensures forall i :: 0 <= i < |lines| ==> OneLine(RewriteLines(lines, updates)[i])
  {
    if lines != [] {
      RewriteLinesOneLine(lines[1..], updates);
      RewrittenLine(lines[0], updates);
    }
  }

  lemma NewLinesParse(lines: seq<string>, updates: map<string, string>)
    requires WellFormed(updates)
    requires forall i :: 0 <= i < |lines| ==> OneLine(lines[i])
    ensures ParseLines(NewLines(lines, updates)) == Override(ParseLines(lines), updates)
    ensures forall i :: 0 <= i < |NewLines(lines, updates)| ==> OneLine(NewLines(lines, updates)[i])
  {
    hide Override, Restrict;
    var missing := Missing(lines, updates);
    RewriteLinesParse(lines, updates);
    AssignmentsParse(missing, updates);
    ParseConcat(RewriteLines(lines, updates), Assignments(missing, updates));
    RestrictAll(ParseLines(lines), updates, Seen(lines, updates));
    RewriteLinesOneLine(lines, updates);
  }

  lemma BlankEntry(line: string)
    requires Blank(line)
    ensures Entry(line) == map[]
  {
    BlankStrip(line);
  }

  /** Dropping white space at the end of the file changes no entry. */
  lemma {:induction false} TrimTailParse(lines: seq<string>)
    ensures ParseLines(TrimTail(lines)) == ParseLines(lines)
  {
    hide RStrip, Entry, NameOn, Override;
    BlankEntry("");
    OverrideEmpty<string, string>(map[]);
    if lines == [] {
      assert [""][1..] == [];
    } else if AllBlank(lines[1..]) {
      BlankLinesParse(lines[1..]);
      NameOnRStrip(lines[0]);
      assert [RStrip(lines[0])][1..] == [];
    } else {
      TrimTailParse(lines[1..]);
      assert ([lines[0]] + TrimTail(lines[1..]))[1..] == TrimTail(lines[1..]);
    }
  }

  lemma {:induction false} BlankLinesParse(lines: seq<string>)
    requires AllBlank(lines)
    ensures ParseLines(lines) == map[]
  {
    OverrideEmpty<string, string>(map[]);
    hide Entry, Override;
    if lines != [] {
      BlankEntry(lines[0]);
      BlankLinesParse(lines[1..]);
    }
  }

  /** The lines of the rewritten file: the new lines, trimmed at the end. */
  lemma UpdatedLines(content: Option<string>, updates: map<string, string>)
    requires WellFormed(updates)
    ensures Lines(Some(Updated(content, updates))) == TrimTail(NewLines(Lines(content), updates))
  {
    var lines := NewLines(Lines(content), updates);
    NewLinesParse(Lines(content), updates);
    RStripJoin(lines);
    TrimTailOneLine(lines);
    NoReturnInJoin(TrimTail(lines));
    UniversalNewlinesId(Join(TrimTail(lines)) + "\n");
    SplitJoin(TrimTail(lines));
  }

  /** Rewriting the file acts on the parsed values exactly as overriding them
      with the updates, for every file, if and only if the updates are well
      formed. */
  lemma UpdateIsOverride(content: Option<string>, updates: map<string, string>)
    ensures Parsed(Some(Updated(content, updates))) == Parsed(content) + updates <==> WellFormed(updates)
  {
    if WellFormed(updates) {
      UpdatedLines(content, updates);
      TrimTailParse(NewLines(Lines(content), updates));
      NewLinesParse(Lines(content), updates);
    } else {
      ParseLinesWellFormed(Lines(Some(Updated(content, updates))));
      var name :| name in updates && !(WellFormedName(name) && WellFormedValue(updates[name]));
      var after := Parsed(Some(Updated(content, updates)));
      assert name in Parsed(content) + updates && (Parsed(content) + updates)[name] == updates[name];
      assert WellFormed(after);
      assert name !in after || after[name] != updates[name];
    }
  }

  // ------------------------------------------------------ what rewriting keeps

  /** The lines that carry no updated name, in order. */
  function Kept(lines: seq<string>, updates: map<string, string>): seq<string> {
    if lines == [] then []
    else (if Names(lines[0], updates) then [] else [lines[0]]) + Kept(lines[1..], updates)
  }

  lemma {:induction false} KeptConcat(a: seq<string>, b: seq<string>, updates: map<string, string>)
    ensures Kept(a + b, updates) == Kept(a, updates) + Kept(b, updates)
  {
    if a == [] {
      assert a + b == b;
    } else {
      assert (a + b)[1..] == a[1..] + b;
      KeptConcat(a[1..], b, updates);
    }
  }

  lemma {:induction false} RewriteLinesKeep(lines: seq<string>, updates: map<string, string>)
    requires WellFormed(updates)
    ensures Kept(RewriteLines(lines, updates), updates) == Kept(lines, updates)
  {
    if lines != [] {
      RewriteLinesKeep(lines[1..], updates);
      assert RewriteLines(lines, updates)[1..] == RewriteLines(lines[1..], updates);
      RewrittenLine(lines[0], updates);
    }
  }

  lemma {:induction false} AssignmentsKeepNothing(names: seq<string>, updates: map<string, string>)
    requires WellFormed(updates) && AllIn(names, updates)
    ensures Kept(Assignments(names, updates), updates) == []
  {
    if names != [] {
      AssignmentsKeepNothing(names[1..], updates);
      AssignmentEntry(names[0], updates[names[0]]);
      assert Assignments(names, updates)[1..] == Assignments(names[1..], updates);
    }
  }

  /** Lines that name no updated key survive, unchanged and in order, in the
      lines that are joined; after that only white space at the end of the file
      goes. */
  lemma UpdateKeepsOtherLines(content: Option<string>, updates: map<string, string>)
    requires WellFormed(updates)
    ensures Kept(NewLines(Lines(content), updates), updates) == Kept(Lines(content), updates)
    ensures Lines(Some(Updated(content, updates))) == TrimTail(NewLines(Lines(content), updates))
  {
    StringLessStrictTotal();
    var lines := Lines(content);
    var missing := Missing(lines, updates);
    RewriteLinesKeep(lines, updates);
    AssignmentsKeepNothing(missing, updates);
    KeptConcat(RewriteLines(lines, updates), Assignments(missing, updates), updates);
    UpdatedLines(content, updates);
  }

  // -------------------------------------------------------------- idempotence

  /** Every line already says what the updates say. */
  predicate Settled(lines: seq<string>, updates: map<string, string>) {
    forall i :: 0 <= i < |lines| ==> RewriteLine(lines[i], updates) == lines[i]
  }

  lemma {:induction false} SettledRewrite(lines: seq<string>, updates: map<string, string>)
    requires Settled(lines, updates)
    ensures RewriteLines(lines, updates) == lines
  {
    if lines != [] {
      assert forall i :: 0 <= i < |lines[1..]| ==> lines[1..][i] == lines[i + 1];
      SettledRewrite(lines[1..], updates);
    }
  }

  lemma {:induction false} RewriteLinesSettles(lines: seq<string>, updates: map<string, string>)
    requires WellFormed(updates)
    ensures Settled(RewriteLines(lines, updates), updates)
  {
    if lines != [] {
      RewriteLinesSettles(lines[1..], updates);
      RewrittenLine(lines[0], updates);
    }
  }

  lemma {:induction false} AssignmentsSettled(names: seq<string>, updates: map<string, string>)
    requires WellFormed(updates) && AllIn(names, updates)
    ensures Settled(Assignments(names, updates), updates)
  {
    if names != [] {
      AssignmentsSettled(names[1..], updates);
      AssignmentEntry(names[0], updates[names[0]]);
    }
  }

  lemma NameOnRStrip(line: string)
    ensures NameOn(RStrip(line)) == NameOn(line)
    ensures Entry(RStrip(line)) == Entry(line)
  {
    hide IsSpace, LStrip, RStrip, IndexOf, NameOn;
    var pad := RStripSplits(line);
    StripPad("", RStrip(line), pad);
    assert "" + RStrip(line) + pad == line;
    KeyAgrees(line);
    KeyAgrees(RStrip(line));
    SameSingleton(NameOn(line), NameOn(RStrip(line)));
  }

  lemma SameSingleton<T>(a: Option<T>, b: Option<T>)
    requires (match a case None => {} case Some(x) => {x}) == (match b case None => {} case Some(x) => {x})
    ensures a == b
  {
    assert a.Some? ==> a.value in {a.value};
    assert b.Some? ==> b.value in {b.value};
  }

  /** Trimming the right end of a settled line leaves it settled. */
  lemma SettledRStrip(line: string, updates: map<string, string>)
    requires WellFormed(updates) && RewriteLine(line, updates) == line
    ensures RewriteLine(RStrip(line), updates) == RStrip(line)
  {
    hide NameOn, Entry, Assignment, RStrip;
    NameOnRStrip(line);
    if Names(line, updates) {
      AssignmentEntry(NameOn(line).value, updates[NameOn(line).value]);
    }
  }

  lemma {:induction false} TrimTailSettled(lines: seq<string>, updates: map<string, string>)
    requires WellFormed(updates) && Settled(lines, updates)
    ensures Settled(TrimTail(lines), updates)
  {
    if lines == [] {
      assert RewriteLine("", updates) == "";
    } else if AllBlank(lines[1..]) {
      SettledRStrip(lines[0], updates);
    } else {
      assert Settled(lines[1..], updates);
      TrimTailSettled(lines[1..], updates);
    }
  }

  /** Running the same well-formed update twice writes the same text as running
      it once. */
  lemma UpdateIdempotent(content: Option<string>, updates: map<string, string>)
    requires WellFormed(updates)
    ensures Updated(Some(Updated(content, updates)), updates) == Updated(content, updates)
  {
    StringLessStrictTotal();
    var lines := Lines(content);
    var missing := Missing(lines, updates);
    var written := NewLines(lines, updates);
    RewriteLinesSettles(lines, updates);
    AssignmentsSettled(missing, updates);
    var again := TrimTail(written);
    TrimTailSettled(written, updates);
    UpdatedLines(content, updates);
    SettledRewrite(again, updates);
    TrimTailParse(written);
    NewLinesParse(lines, updates);
    RewriteLinesParse(again, updates);
    assert updates.Keys - Seen(again, updates) == {};
    ElementsEmpty(Missing(again, updates));
    assert NewLines(again, updates) == again;
    RStripJoin(written);
    RStripFixed(Join(written));
  }

  lemma RStripFixed(s: string)
    ensures RStrip(RStrip(s)) == RStrip(s)
  {
    var pad := RStripSplits(s);
  }
}
