/** Payload offload as a transition system: one writer at a time, under the service's lock, with
    crashes and the temp-file cleaner at any point. */
module PayloadProtocol {
  import opened Integers
  import opened Sequences
  import opened Records
  import opened Paths
  import opened FtsQuery

  const SUFFIX := ".txt"
  const TEMP_MARK := ".txt.tmp."

  predicate RefChar(c: char) {
    IsAlnum(c) || c == '_' || c == '-'
  }

  /** The name of a payload file: a sanitised reference and the suffix. */
  predicate FinalName(name: string) {
    && |name| >= |SUFFIX|
    && name[|name| - |SUFFIX|..] == SUFFIX
    && forall i :: 0 <= i < |name| - |SUFFIX| ==> RefChar(name[i])
  }

  predicate Mentions(name: string, mark: string) {
    exists i :: 0 <= i <= |name| && MentionsAt(name, mark, i)
  }

  predicate MentionsAt(name: string, mark: string, i: int) {
    0 <= i && i + |mark| <= |name| && name[i..i + |mark|] == mark
  }

  function TempName(name: string, suffix: string): string {
    name + ".tmp." + suffix
  }

  /** What a row's file was written with; kept for the statement of the invariant only. */
  datatype Written = Written(name: string, content: string)

  datatype Writer =
    | Idle
    | Checked(name: string, content: string)
    | TempOpen(name: string, content: string, temp: string)
    | TempWritten(name: string, content: string, temp: string)
    | Renamed(name: string, content: string)

  datatype State = State(
    files: map<Path, string>,
    rows: map<string, MemoryPayloadRef>,
    written: map<string, Written>,
    writer: Writer)

  /** Where the service keeps its files: the text it builds uris from, and the directory it means. */
  datatype Place = Place(directory: string, resolved: Path)

  function UriOf(place: Place, name: string): string {
    "file://" + Join(place.directory, name)
  }

  function PathOf(place: Place, name: string): Path {
    place.resolved + [name]
  }

  function Without(files: map<Path, string>, path: Path): map<Path, string> {
    map p | p in files && p != path :: files[p]
  }

  predicate IsPrefix(a: string, b: string) {
    a <= b
  }

  /** Steps of the writer. */
  ghost predicate WriterStep(place: Place, s: State, t: State) {
    match s.writer
    case Idle =>
      // A free final name has been found for a non-empty content.
      t.writer.Checked? && t == s.(writer := t.writer)
      && FinalName(t.writer.name) && t.writer.content != "" && PathOf(place, t.writer.name) !in s.files
    case Checked(name, content) =>
      t.writer.TempOpen? && t == s.(writer := t.writer, files := s.files[PathOf(place, t.writer.temp) := ""])
      && t.writer.name == name && t.writer.content == content
      && Mentions(t.writer.temp, TEMP_MARK) && PathOf(place, t.writer.temp) !in s.files
    case TempOpen(name, content, temp) =>
      // Partial and complete writes; writing to a file the cleaner has unlinked leaves no trace.
      (exists part | IsPrefix(part, content) ::
         t == s.(files := if PathOf(place, temp) in s.files then s.files[PathOf(place, temp) := part] else s.files))
      || t == s.(writer := TempWritten(name, content, temp),
                 files := if PathOf(place, temp) in s.files then s.files[PathOf(place, temp) := content] else s.files)
      || t == s.(writer := Idle, files := Without(s.files, PathOf(place, temp)))
    case TempWritten(name, content, temp) =>
      (PathOf(place, temp) in s.files
       && t == s.(writer := Renamed(name, content),
                  files := Without(s.files, PathOf(place, temp))[PathOf(place, name) := s.files[PathOf(place, temp)]]))
      || t == s.(writer := Idle, files := Without(s.files, PathOf(place, temp)))
    case Renamed(name, content) =>
      // The metadata row is saved, or the file is removed again; the removal may fail as well.
      (t.writer.Idle? && UriOf(place, name) in t.rows
       && t == s.(writer := Idle, rows := s.rows[UriOf(place, name) := t.rows[UriOf(place, name)]],
                  written := s.written[UriOf(place, name) := Written(name, content)])
       && t.rows[UriOf(place, name)].originalChars == AsInt32(|content|))
      || t == s.(writer := Idle, files := Without(s.files, PathOf(place, name)))
  }

  /** The cleaner removes a file of the directory whose name has the temp mark, whatever its age. */
  ghost predicate CleanerStep(place: Place, s: State, t: State) {
    exists name | Mentions(name, TEMP_MARK) :: t == s.(files := Without(s.files, PathOf(place, name)))
  }

  /** A crash, or an error before anything was written, forgets the writer and keeps the disk. */
  ghost predicate CrashStep(s: State, t: State) {
    t == s.(writer := Idle)
  }

  ghost predicate Next(place: Place, s: State, t: State) {
    WriterStep(place, s, t) || CleanerStep(place, s, t) || CrashStep(s, t)
  }

  ghost predicate IsTrace(place: Place, trace: seq<State>) {
    |trace| > 0 && forall i :: 0 < i < |trace| ==> Next(place, trace[i - 1], trace[i])
  }

  ghost predicate Initial(s: State) {
    s.rows == map[] && s.written == map[] && s.writer.Idle?
  }

  /** The row's file holds exactly the content that was offloaded, of the recorded length. */
  predicate RowIntact(place: Place, s: State, uri: string)
    requires uri in s.rows
  {
    && uri in s.written
    && var w := s.written[uri];
       && uri == UriOf(place, w.name) && FinalName(w.name) && w.content != ""
       && PathOf(place, w.name) in s.files && s.files[PathOf(place, w.name)] == w.content
       && s.rows[uri].originalChars == AsInt32(|w.content|)
  }

  ghost predicate WriterSafe(place: Place, s: State) {
    match s.writer
    case Idle => true
    case Checked(name, content) => FinalName(name) && content != "" && PathOf(place, name) !in s.files
    case TempOpen(name, content, temp) =>
      FinalName(name) && content != "" && PathOf(place, name) !in s.files && Mentions(temp, TEMP_MARK)
    case TempWritten(name, content, temp) =>
      && FinalName(name) && content != "" && PathOf(place, name) !in s.files && Mentions(temp, TEMP_MARK)
      && (PathOf(place, temp) in s.files ==> s.files[PathOf(place, temp)] == content)
    case Renamed(name, content) =>
      && FinalName(name) && content != "" && UriOf(place, name) !in s.rows
      && PathOf(place, name) in s.files && s.files[PathOf(place, name)] == content
  }

  ghost predicate Safe(place: Place, s: State) {
    (forall uri :: uri in s.rows ==> RowIntact(place, s, uri)) && WriterSafe(place, s)
  }

  // ----- Names -----

  /** The only dot of a payload file name is the suffix's. */
  lemma DotOfFinal(name: string)
    requires FinalName(name)
    ensures forall i :: 0 <= i < |name| && name[i] == '.' ==> i == |name| - |SUFFIX|
  {
    forall i | |name| - |SUFFIX| <= i < |name| ensures name[i] == SUFFIX[i - (|name| - |SUFFIX|)] {
      assert name[i] == name[|name| - |SUFFIX|..][i - (|name| - |SUFFIX|)];
    }
  }

  lemma DotsOfMark(name: string, i: int)
    requires MentionsAt(name, TEMP_MARK, i)
    ensures name[i] == '.' && name[i + 4] == '.'
  {
    var part := name[i..i + |TEMP_MARK|];
    assert part[0] == '.' && part[4] == '.';
  }

  /** A payload file can never be taken for a temporary one. */
  lemma FinalNeverMarked(name: string)
    requires FinalName(name)
    ensures !Mentions(name, TEMP_MARK)
  {
    DotOfFinal(name);
    hide FinalName;
    forall i ensures !MentionsAt(name, TEMP_MARK, i) {
      if MentionsAt(name, TEMP_MARK, i) {
        DotsOfMark(name, i);
      }
    }
  }

  lemma PathInjective(place: Place, a: string, b: string)
    ensures PathOf(place, a) == PathOf(place, b) <==> a == b
  {
    assert PathOf(place, a)[|place.resolved|] == a && PathOf(place, b)[|place.resolved|] == b;
  }

  lemma TempIsMarked(name: string, suffix: string)
    requires FinalName(name)
    ensures Mentions(TempName(name, suffix), TEMP_MARK)
  {
    var temp, i := TempName(name, suffix), |name| - |SUFFIX|;
    assert temp == name[..i] + TEMP_MARK + suffix by {
      assert name == name[..i] + SUFFIX;
      assert SUFFIX + ".tmp." == TEMP_MARK;
    }
    assert MentionsAt(temp, TEMP_MARK, i);
  }

  lemma FinalIsPlain(name: string)
    requires FinalName(name)
    ensures PlainName(name)
  {
    assert name[|name| - 4..][3] == 't';
    assert name[|name| - 1] == 't';
    forall i | 0 <= i < |name| ensures name[i] != '/' {
      if i >= |name| - 4 {
        assert name[i] == name[|name| - 4..][i - (|name| - 4)];
      }
    }
  }

  lemma UriExtends(place: Place, name: string)
    ensures UriOf(place, name) == UriOf(place, "") + name
  {
    var dir := place.directory;
    assert dir + name == (dir + "") + name && dir + "/" + name == (dir + "/" + "") + name;
    assert "file://" + ((dir + "") + name) == ("file://" + (dir + "")) + name;
    assert "file://" + ((dir + "/" + "") + name) == ("file://" + (dir + "/" + "")) + name;
  }

  lemma UriInjective(place: Place, a: string, b: string)
    requires UriOf(place, a) == UriOf(place, b)
    ensures a == b
  {
    UriExtends(place, a);
    UriExtends(place, b);
    hide UriOf;
    CancelHead(UriOf(place, ""), a, b);
  }

  // ----- Safety -----

  /** A change to a file whose name no row's file has leaves every row intact. */
  lemma OtherFilesKeepRows(place: Place, s: State, name: string, files: map<Path, string>)
    requires forall uri :: uri in s.rows ==> RowIntact(place, s, uri)
    requires forall uri :: uri in s.rows ==> uri in s.written && s.written[uri].name != name
    requires forall p :: p != PathOf(place, name) && p in s.files ==> p in files && files[p] == s.files[p]
    ensures forall uri :: uri in s.rows ==> RowIntact(place, s.(files := files), uri)
  {
    hide FinalName;
    forall uri | uri in s.rows ensures RowIntact(place, s.(files := files), uri) {
      assert RowIntact(place, s, uri);
      PathInjective(place, s.written[uri].name, name);
    }
  }

  /** Creating, writing or removing a marked file touches no payload file. */
  lemma MarkedKeepsRows(place: Place, s: State, name: string, files: map<Path, string>)
    requires forall uri :: uri in s.rows ==> RowIntact(place, s, uri)
    requires Mentions(name, TEMP_MARK)
    requires forall p :: p != PathOf(place, name) && p in s.files ==> p in files && files[p] == s.files[p]
    ensures forall uri :: uri in s.rows ==> RowIntact(place, s.(files := files), uri)
  {
    forall uri | uri in s.rows ensures uri in s.written && s.written[uri].name != name {
      assert RowIntact(place, s, uri);
      FinalNeverMarked(s.written[uri].name);
    }
    OtherFilesKeepRows(place, s, name, files);
  }

  /** A file that no row uses may be created, replaced or removed. */
  lemma UnusedNameKeepsRows(place: Place, s: State, name: string, files: map<Path, string>)
    requires forall uri :: uri in s.rows ==> RowIntact(place, s, uri)
    requires UriOf(place, name) !in s.rows
    requires forall p :: p != PathOf(place, name) && p in s.files ==> p in files && files[p] == s.files[p]
    ensures forall uri :: uri in s.rows ==> RowIntact(place, s.(files := files), uri)
  {
    forall uri | uri in s.rows ensures uri in s.written && s.written[uri].name != name {
      assert RowIntact(place, s, uri);
    }
    OtherFilesKeepRows(place, s, name, files);
  }

  lemma FreeNameHasNoRow(place: Place, s: State, name: string)
    requires forall uri :: uri in s.rows ==> RowIntact(place, s, uri)
    requires PathOf(place, name) !in s.files
    ensures UriOf(place, name) !in s.rows
  {
    if UriOf(place, name) in s.rows {
      assert RowIntact(place, s, UriOf(place, name));
      UriInjective(place, name, s.written[UriOf(place, name)].name);
    }
  }

  lemma CleanerKeepsSafe(place: Place, s: State, t: State)
    requires Safe(place, s) && CleanerStep(place, s, t)
    ensures Safe(place, t)
  {
    var name :| Mentions(name, TEMP_MARK) && t == s.(files := Without(s.files, PathOf(place, name)));
    MarkedKeepsRows(place, s, name, t.files);
    if s.writer.Renamed? {
      FinalNeverMarked(s.writer.name);
      PathInjective(place, s.writer.name, name);
    }
  }

  lemma TempStepKeepsSafe(place: Place, s: State, t: State)
    requires Safe(place, s) && (s.writer.Checked? || s.writer.TempOpen?) && WriterStep(place, s, t)
    ensures Safe(place, t)
  {
    var temp := if s.writer.Checked? then t.writer.temp else s.writer.temp;
    FinalNeverMarked(s.writer.name);
    PathInjective(place, s.writer.name, temp);
    MarkedKeepsRows(place, s, temp, t.files);
  }

  lemma RenameKeepsSafe(place: Place, s: State, t: State)
    requires Safe(place, s) && s.writer.TempWritten? && WriterStep(place, s, t)
    ensures Safe(place, t)
  {
    var name, temp := s.writer.name, s.writer.temp;
    FreeNameHasNoRow(place, s, name);
    var removed := s.(files := Without(s.files, PathOf(place, temp)));
    MarkedKeepsRows(place, s, temp, removed.files);
    hide Mentions, FinalName, PathOf;
    if t.writer.Renamed? {
      UnusedNameKeepsRows(place, removed, name, t.files);
    }
  }

  lemma SaveKeepsSafe(place: Place, s: State, t: State)
    requires Safe(place, s) && s.writer.Renamed? && WriterStep(place, s, t)
    ensures Safe(place, t)
  {
    hide Mentions, FinalName;
    UnusedNameKeepsRows(place, s, s.writer.name, Without(s.files, PathOf(place, s.writer.name)));
    if UriOf(place, s.writer.name) in t.rows {
      forall uri | uri in t.rows ensures RowIntact(place, t, uri) {
        assert uri in s.rows ==> RowIntact(place, s, uri);
      }
    }
  }

  lemma StepKeepsSafe(place: Place, s: State, t: State)
    requires Safe(place, s) && Next(place, s, t)
    ensures Safe(place, t)
  {
    hide Mentions, FinalName;
    if CleanerStep(place, s, t) {
      CleanerKeepsSafe(place, s, t);
    } else if WriterStep(place, s, t) {
      match s.writer {
        case Idle =>
        case Checked(_, _) => TempStepKeepsSafe(place, s, t);
        case TempOpen(_, _, _) => TempStepKeepsSafe(place, s, t);
        case TempWritten(_, _, _) => RenameKeepsSafe(place, s, t);
        case Renamed(_, _) => SaveKeepsSafe(place, s, t);
      }
    }
  }

  /** Crash safety: in every state of every history, each payload row refers to a file that holds
      exactly what was offloaded, of the recorded length. */
  lemma {:induction false} AlwaysSafe(place: Place, trace: seq<State>, i: nat)
    requires IsTrace(place, trace) && Initial(trace[0]) && i < |trace|
    ensures Safe(place, trace[i])
  {
    if i > 0 {
      AlwaysSafe(place, trace, i - 1);
      StepKeepsSafe(place, trace[i - 1], trace[i]);
    }
  }

  /** Rows are only ever added. */
  lemma RowsGrow(place: Place, s: State, t: State)
    requires Safe(place, s) && Next(place, s, t)
    ensures forall uri :: uri in s.rows ==> uri in t.rows && t.rows[uri] == s.rows[uri]
    ensures forall uri :: uri in s.rows ==> uri in s.written && uri in t.written && t.written[uri] == s.written[uri]
  {
    hide Mentions, FinalName, PathOf, Without;
    forall uri | uri in s.rows ensures uri in s.written {
      assert RowIntact(place, s, uri);
    }
    StepAddsOnly(place, s, t);
  }

  lemma StepAddsOnly(place: Place, s: State, t: State)
    requires Next(place, s, t) && (s.writer.Renamed? ==> UriOf(place, s.writer.name) !in s.rows)
    ensures forall uri :: uri in s.rows ==> uri in t.rows && t.rows[uri] == s.rows[uri]
    ensures forall uri :: uri in s.rows && uri in s.written ==> uri in t.written && t.written[uri] == s.written[uri]
  {
    hide Mentions, FinalName, PathOf, Without, UriOf;
  }

  /** Once a row refers to a file, no later step of any history alters or removes the file. */
  lemma {:induction false} ReferencedFilesStay(place: Place, trace: seq<State>, i: nat, j: nat, uri: string)
    requires IsTrace(place, trace) && Initial(trace[0]) && i <= j < |trace|
    requires uri in trace[i].rows
    ensures uri in trace[j].rows && trace[j].rows[uri] == trace[i].rows[uri]
    ensures uri in trace[i].written && uri in trace[j].written && trace[j].written[uri] == trace[i].written[uri]
    ensures var path := PathOf(place, trace[i].written[uri].name);
      path in trace[i].files && path in trace[j].files && trace[j].files[path] == trace[i].files[path]
    decreases j
  {
    hide Next, RowIntact;
    AlwaysSafe(place, trace, i);
    AlwaysSafe(place, trace, j);
    if i < j {
      ReferencedFilesStay(place, trace, i, j - 1, uri);
      AlwaysSafe(place, trace, j - 1);
      RowsGrow(place, trace[j - 1], trace[j]);
    }
    IntactFile(place, trace[i], uri);
    IntactFile(place, trace[j], uri);
  }

  lemma IntactFile(place: Place, s: State, uri: string)
    requires uri in s.rows && RowIntact(place, s, uri)
    ensures uri in s.written
    ensures var path := PathOf(place, s.written[uri].name);
      path in s.files && s.files[path] == s.written[uri].content
  {
  }
}
