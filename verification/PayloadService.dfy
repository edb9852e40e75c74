/** The payload service: every run of its methods is a history of the payload protocol. */
module PayloadService {
  import opened Integers
  import opened Sequences
  import opened CursorText
  import opened Records
  import opened Json
  import opened Paths
  import opened PayloadProtocol
  import opened SqliteStore

  datatype PayloadWriteRequest = PayloadWriteRequest(
    agentId: string,
    sessionId: string,
    content: string,
    contentType: string,
    toolCallId: string,
    toolName: string)

  datatype PayloadWriteResult = PayloadWriteResult(
    succeeded: bool,
    offloaded: bool,
    payload: Option<MemoryPayloadRef>,
    replacementContent: string,
    errorCode: string,
    orphanRemains: bool)

  const SCHEME := "file://"

  /** What a read of `ref` finds: a file below the payload directory that is not empty. */
  function ReadSpec(cwd: Path, place: Place, files: map<Path, string>, ref: string): Option<string> {
    if !(SCHEME <= ref) then None
    else
      var path := Canonical(cwd, ref[|SCHEME|..]);
      if place.resolved < path && path in files && files[path] != "" then Some(files[path]) else None
  }

  ghost predicate Reaches(place: Place, trace: seq<State>, s: State) {
    trace != [] && IsTrace(place, trace) && Initial(trace[0]) && trace[|trace| - 1] == s
  }

  lemma ReachesOneMore(place: Place, trace: seq<State>, s: State, t: State)
    requires Reaches(place, trace, s) && Next(place, s, t)
    ensures Reaches(place, trace + [t], t)
  {
    hide Next, Initial;
  }

  lemma ReachesIsSafe(place: Place, trace: seq<State>, s: State)
    requires Reaches(place, trace, s)
    ensures Safe(place, s)
  {
    AlwaysSafe(place, trace, |trace| - 1);
  }

  function DirectoryText(dataPath: string): string {
    Join(Join(dataPath, "memory_runtime"), "payloads")
  }

  function PlaceOf(cwd: Path, dataPath: string): Place {
    Place(DirectoryText(dataPath), Canonical(cwd, DirectoryText(dataPath)))
  }

  /** The payload directory lies two levels below the data path. */
  lemma PayloadDirectory(cwd: Path, dataPath: string)
    ensures PlaceOf(cwd, dataPath).resolved
         == (if dataPath == "" then cwd else Canonical(cwd, dataPath)) + ["memory_runtime", "payloads"]
  {
    var runtime := Join(dataPath, "memory_runtime");
    assert runtime != "";
    NamesArePlain();
    hide PlainName, Canonical, Join;
    NameIsOneComponent(cwd, dataPath, "memory_runtime");
    NameIsOneComponent(cwd, runtime, "payloads");
    var base := if dataPath == "" then cwd else Canonical(cwd, dataPath);
    assert base + ["memory_runtime"] + ["payloads"] == base + ["memory_runtime", "payloads"];
  }

  lemma NamesArePlain()
    ensures PlainName("memory_runtime") && PlainName("payloads")
  {
  }

  lemma DirectoryEndsInName(dataPath: string)
    ensures var d := DirectoryText(dataPath); d != "" && d[|d| - 1] == 's'
  {
  }

  lemma UriText(cwd: Path, dataPath: string, ref: string)
    ensures UriOf(PlaceOf(cwd, dataPath), ref + SUFFIX) == "file://" + DirectoryText(dataPath) + "/" + ref + ".txt"
  {
    DirectoryEndsInName(dataPath);
    hide DirectoryText;
  }

  /** The uri of a payload file resolves to the file. */
  lemma UriResolves(cwd: Path, dataPath: string, name: string)
    requires FinalName(name)
    ensures var place := PlaceOf(cwd, dataPath);
      && SCHEME <= UriOf(place, name)
      && Canonical(cwd, UriOf(place, name)[|SCHEME|..]) == PathOf(place, name)
      && place.resolved < PathOf(place, name)
  {
    DirectoryEndsInName(dataPath);
    FinalIsPlain(name);
    NameIsOneComponent(cwd, DirectoryText(dataPath), name);
    assert UriOf(PlaceOf(cwd, dataPath), name)[|SCHEME|..] == Join(DirectoryText(dataPath), name);
  }

  /** Round trip: the uri of any stored payload row reads back the content that was offloaded, in
      every state the protocol can reach. */
  lemma StoredPayloadReadsBack(cwd: Path, dataPath: string, trace: seq<State>, s: State, uri: string)
    requires Reaches(PlaceOf(cwd, dataPath), trace, s) && uri in s.rows
    ensures uri in s.written
    ensures ReadSpec(cwd, PlaceOf(cwd, dataPath), s.files, uri) == Some(s.written[uri].content)
  {
    ReachesIsSafe(PlaceOf(cwd, dataPath), trace, s);
    assert RowIntact(PlaceOf(cwd, dataPath), s, uri);
    hide Canonical, FinalName;
    UriResolves(cwd, dataPath, s.written[uri].name);
  }

  lemma CleanOne(raw: string, value: string, i: nat)
    requires i < |raw| == |value| && value[..i] == Cleaned(raw[..i]) && value[i..] == raw[i..]
    ensures value[i] == raw[i]
    ensures var next := if RefChar(value[i]) then value else value[i := '_'];
      next[..i + 1] == Cleaned(raw[..i + 1]) && next[i + 1..] == raw[i + 1..]
  {
    assert raw[..i + 1] == raw[..i] + [raw[i]];
    assert value[i..][0] == raw[i..][0];
    assert value[i..][1..] == raw[i..][1..];
  }

  predicate IsHex(c: char) {
    '0' <= c <= '9' || 'a' <= c <= 'f'
  }

  predicate HexDigits(s: string) {
    forall c :: c in s ==> IsHex(c)
  }

  /** Random hexadecimal digits. */
  method RandomHex() returns (s: string)
    ensures HexDigits(s)
  {
    var n: nat :| 0 <= n;
    s := "";
    for i := 0 to n
      invariant HexDigits(s)
    {
      var d: nat :| d < 16;
      s := s + [if d < 10 then '0' + d as char else 'a' + (d - 10) as char];
    }
  }

  /** What the sanitising of a reference keeps of a text: its length and every allowed character. */
  function Cleaned(text: string): (r: string)
    ensures forall c :: c in r ==> RefChar(c)
    ensures (forall c :: c in text ==> RefChar(c)) ==> r == text
  {
    Map((c: char) => if RefChar(c) then c else '_', text)
  }

  lemma CleanedChars(text: string, i: nat)
    ensures |Cleaned(text)| == |text|
    ensures i < |text| ==>
      Cleaned(text)[i] == if 'a' <= text[i] <= 'z' || 'A' <= text[i] <= 'Z' || '0' <= text[i] <= '9'
                             || text[i] == '_' || text[i] == '-'
                          then text[i] else '_'
  {
  }

  /** Session, tool call and random digits stay apart in a reference, each cleaned on its own. */
  lemma CleanedParts(sessionId: string, toolCallId: string, digits: string)
    requires HexDigits(digits)
    ensures Cleaned(sessionId + "_" + toolCallId + "_" + digits)
         == Cleaned(sessionId) + "_" + Cleaned(toolCallId) + "_" + digits
  {
    CleanedConcat(sessionId + "_" + toolCallId + "_", digits);
    CleanedConcat(sessionId + "_" + toolCallId, "_");
    CleanedConcat(sessionId + "_", toolCallId);
    CleanedConcat(sessionId, "_");
  }

  lemma CleanedConcat(a: string, b: string)
    ensures Cleaned(a + b) == Cleaned(a) + Cleaned(b)
  {
  }

  class PayloadService {
    const cwd: Path
    const dataPath: string
    const enablePayloadOffload: bool
    const offloadThresholdChars: Int32
    const store: MemorySqliteStore?
    /** The disk. */
    var files: map<Path, string>
    ghost var written: map<string, Written>
    ghost var trace: seq<State>

    function Where(): Place
    {
      PlaceOf(cwd, dataPath)
    }

    function Rows(): map<string, MemoryPayloadRef>
      reads store
    {
      if store == null then map[] else store.payloads
    }

    ghost function StateIn(writer: Writer): State
      reads this, store
    {
      State(files, Rows(), written, writer)
    }

    ghost predicate ValidIn(writer: Writer)
      reads this, store
    {
      (store != null ==> store.Valid()) && Reaches(Where(), trace, StateIn(writer))
    }

    ghost predicate Valid()
      reads this, store
    {
      ValidIn(Idle)
    }

    /** Opens the service on the disk and database left by an earlier history. */
    constructor (cwd: Path, dataPath: string, enabled: bool, threshold: Int32, store: MemorySqliteStore?,
                 files: map<Path, string>, ghost past: seq<State>)
      requires store != null ==> store.Valid()
      requires past != [] && past[|past| - 1].writer.Idle? && past[|past| - 1].files == files
      requires past[|past| - 1].rows == if store == null then map[] else store.payloads
      requires Reaches(PlaceOf(cwd, dataPath), past, past[|past| - 1])
      ensures Valid() && trace == past
    {
      this.cwd, this.dataPath := cwd, dataPath;
      this.enablePayloadOffload, this.offloadThresholdChars := enabled, threshold;
      this.store, this.files := store, files;
      written, trace := past[|past| - 1].written, past;
    }

    /** Any file system operation may fail, and then has no effect. */
    method Step() returns (ok: bool)
    {
      ok := *;
    }

    ghost method Record(s: State, writer: Writer)
      requires Reaches(Where(), trace, s) && Next(Where(), s, StateIn(writer))
      modifies `trace
      ensures trace == old(trace) + [StateIn(writer)] && Reaches(Where(), trace, StateIn(writer))
    {
      hide Next, Reaches;
      ReachesOneMore(Where(), trace, s, StateIn(writer));
      trace := trace + [StateIn(writer)];
    }

    /** The detached cleaner thread: it may remove temp files at any moment. */
    method Cleaner(ghost writer: Writer)
      requires ValidIn(writer)
      modifies `files, `trace
      ensures ValidIn(writer) && old(trace) <= trace
      ensures files.Keys <= old(files).Keys
    {
      hide Next, Reaches;
      var rounds: nat :| 0 <= rounds;
      for i := 0 to rounds
        invariant ValidIn(writer) && old(trace) <= trace
        invariant files.Keys <= old(files).Keys
      {
        var name: string := *;
        if Mentions(name, TEMP_MARK) {
          ghost var s := StateIn(writer);
          files := Without(files, PathOf(Where(), name));
          CleanerIsStep(Where(), s, name);
          Record(s, writer);
        }
      }
    }

    /** Session and tool call with every character outside [A-Za-z0-9_-] replaced, and random digits. */
    method BuildPayloadRef(request: PayloadWriteRequest) returns (value: string, ghost digits: string)
      ensures HexDigits(digits)
      ensures value == Cleaned(if request.sessionId == "" then "default" else request.sessionId) + "_"
                     + Cleaned(if request.toolCallId == "" then "payload" else request.toolCallId) + "_" + digits
      ensures forall i :: 0 <= i < |value| ==> RefChar(value[i])
    {
      var sessionId := if request.sessionId == "" then "default" else request.sessionId;
      var toolCallId := if request.toolCallId == "" then "payload" else request.toolCallId;
      var random := RandomHex();
      digits := random;
      value := sessionId + "_" + toolCallId + "_" + random;
      ghost var raw := value;
      CleanedParts(sessionId, toolCallId, random);
      assert Cleaned(raw[..0]) == "";
      hide Cleaned, HexDigits, RefChar;
      var n := |value|;
      for i := 0 to n
        invariant |value| == |raw| && value[..i] == Cleaned(raw[..i]) && value[i..] == raw[i..]
      {
        CleanOne(raw, value, i);
        if !RefChar(value[i]) {
          value := value[i := '_'];
        }
      }
      assert value[..|raw|] == value && raw[..|raw|] == raw;
    }

    function BuildPayloadSummary(request: PayloadWriteRequest): string {
      "Tool result offloaded"
        + (if request.toolName != "" then " from " + request.toolName else "")
        + ", original chars: " + ToText(|request.content|) + "."
    }

    /** The existence check that opens a write. */
    method CheckFree(name: string, content: string) returns (ok: bool)
      requires Valid() && FinalName(name) && content != ""
      modifies `trace
      ensures ValidIn(if ok then Checked(name, content) else Idle) && old(trace) <= trace
      ensures ok ==> PathOf(Where(), name) !in files
    {
      hide Next, Reaches, FinalName, PathOf;
      ok := Step();
      if !ok || PathOf(Where(), name) in files {
        return false;
      }
      CheckIsStep(Where(), StateIn(Idle), name, content);
      Record(StateIn(Idle), Checked(name, content));
    }

    /** Temp file, then rename; on failure nothing refers to whatever is left on the disk. */
    method WritePayloadFileAtomically(name: string, content: string) returns (ok: bool)
      requires Valid() && FinalName(name) && content != ""
      modifies `files, `trace
      ensures ValidIn(if ok then Renamed(name, content) else Idle) && old(trace) <= trace
    {
      hide ValidIn, FinalName, PathOf;
      ok := CheckFree(name, content);
      if !ok {
        return;
      }
      Cleaner(Checked(name, content));
      var temp;
      ok, temp := OpenTemp(name, content);
      if !ok {
        return;
      }
      ok := WriteTemp(name, content, temp);
      if !ok {
        return;
      }
      Cleaner(TempWritten(name, content, temp));
      ok := Rename(name, content, temp);
      if ok {
        Cleaner(Renamed(name, content));
      }
    }

    /** Opens a fresh temp file next to the final name. */
    method OpenTemp(name: string, content: string) returns (ok: bool, temp: string)
      requires ValidIn(Checked(name, content)) && FinalName(name)
      modifies `files, `trace
      ensures ValidIn(if ok then TempOpen(name, content, temp) else Idle) && old(trace) <= trace
    {
      hide Next, Reaches, FinalName, PathOf, Mentions;
      var random := RandomHex();
      temp := TempName(name, random);
      TempIsMarked(name, random);
      ok := Step();
      ghost var s := StateIn(Checked(name, content));
      if !ok || PathOf(Where(), temp) in files {
        CrashIsStep(Where(), s);
        Record(s, Idle);
        return false, temp;
      }
      OpenIsStep(Where(), s, temp);
      files := files[PathOf(Where(), temp) := ""];
      Record(s, TempOpen(name, content, temp));
      Cleaner(TempOpen(name, content, temp));
    }

    /** Streams the content, with the cleaner and partial writes in between. */
    method WriteTemp(name: string, content: string, temp: string) returns (ok: bool)
      requires ValidIn(TempOpen(name, content, temp))
      modifies `files, `trace
      ensures ValidIn(if ok then TempWritten(name, content, temp) else Idle) && old(trace) <= trace
    {
      hide Next, Reaches, PathOf;
      ghost var writer := TempOpen(name, content, temp);
      var path := PathOf(Where(), temp);
      var cut: nat :| cut <= |content|;
      ghost var s := StateIn(writer);
      if path in files {
        files := files[path := content[..cut]];
      }
      PartialWriteIsStep(Where(), s, content[..cut]);
      Record(s, writer);
      Cleaner(writer);
      ok := Step();
      s := StateIn(writer);
      if ok {
        if path in files {
          files := files[path := content];
        }
        WriteIsStep(Where(), s);
        Record(s, TempWritten(name, content, temp));
      } else {
        var removed := Step();
        if removed {
          files := Without(files, path);
          GiveUpIsStep(Where(), s, temp);
        } else {
          CrashIsStep(Where(), s);
        }
        Record(s, Idle);
      }
    }

    method Rename(name: string, content: string, temp: string) returns (ok: bool)
      requires ValidIn(TempWritten(name, content, temp))
      modifies `files, `trace
      ensures ValidIn(if ok then Renamed(name, content) else Idle) && old(trace) <= trace
    {
      hide Next, Reaches, PathOf;
      ghost var s := StateIn(TempWritten(name, content, temp));
      var path := PathOf(Where(), temp);
      ok := Step();
      if path !in files {
        ok := false;
      }
      if ok {
        RenameIsStep(Where(), s);
        files := Without(files, path)[PathOf(Where(), name) := files[path]];
        Record(s, Renamed(name, content));
      } else {
        var removed := Step();
        if removed {
          files := Without(files, path);
          GiveUpIsStep(Where(), s, temp);
        } else {
          CrashIsStep(Where(), s);
        }
        Record(s, Idle);
      }
    }

    /** Saving the metadata row, and removing the file when that fails. */
    method SaveRow(name: string, content: string, payload: MemoryPayloadRef) returns (ok: bool, orphan: bool)
      requires store != null && ValidIn(Renamed(name, content))
      requires payload.uri == UriOf(Where(), name) && payload.originalChars == AsInt32(|content|)
      modifies `files, `trace, `written, store`payloads
      ensures Valid() && old(trace) <= trace
      ensures store.payloads == if ok then old(store.payloads)[payload.uri := payload] else old(store.payloads)
      ensures ok ==> payload.uri !in old(store.payloads)
      ensures files == if ok || orphan then old(files) else Without(old(files), PathOf(Where(), name))
      ensures ok ==> written == old(written)[payload.uri := Written(name, content)]
    {
      ghost var s := StateIn(Renamed(name, content));
      RenamedHasNoRow(Where(), trace, s);
      hide Next, Reaches, PathOf, UriOf, store.Valid, Where, AsInt32;
      orphan := false;
      ok := store.SavePayload(payload);
      if ok {
        written := written[payload.uri := Written(name, content)];
        SaveIsStep(Where(), s, payload);
        Record(s, Idle);
      } else {
        var removed := Step();
        orphan := !removed;
        if removed {
          files := Without(files, PathOf(Where(), name));
          CompensateIsStep(Where(), s);
        } else {
          CrashIsStep(Where(), s);
        }
        Record(s, Idle);
      }
    }

    /** Large contents are offloaded; whatever is not offloaded is handed back unchanged, with no
        row added. The uri of an offloaded payload reads back its content. */
    method WritePayload(request: PayloadWriteRequest) returns (result: PayloadWriteResult)
      requires Valid()
      modifies this
      modifies if store != null then {store} else {}
      ensures Valid() && old(trace) <= trace
      ensures result.offloaded ==> result.succeeded && result.payload.Some? && store != null
      ensures result.offloaded ==>
        var row := result.payload.value;
        && row.uri !in old(Rows()) && Rows() == old(Rows())[row.uri := row]
        && row == MemoryPayloadRef(request.agentId, request.sessionId, row.uri, request.contentType,
                                   "Tool result offloaded"
                                     + (if request.toolName == "" then "" else " from " + request.toolName)
                                     + ", original chars: " + ToText(|request.content|) + ".",
                                   request.toolName, AsInt32(|request.content|), JObject(map[]), "")
        && (exists digits | HexDigits(digits) ::
              row.uri == "file://" + DirectoryText(dataPath) + "/"
                         + Cleaned(if request.sessionId == "" then "default" else request.sessionId) + "_"
                         + Cleaned(if request.toolCallId == "" then "payload" else request.toolCallId) + "_" + digits
                         + ".txt")
        && result.replacementContent == "[memory-ref: " + row.uri + "]\n" + row.summary
        && ReadSpec(cwd, Where(), files, row.uri) == Some(request.content)
      ensures !result.offloaded ==> Rows() == old(Rows()) && result.replacementContent == request.content
      ensures !result.succeeded ==>
           result.errorCode == if store == null then "payload_store_unavailable" else "payload_write_failed"
      ensures result.succeeded && !result.offloaded <==>
        !enablePayloadOffload || request.content == "" || AsInt32(|request.content|) < offloadThresholdChars
    {
      hide Reaches, PathOf, UriOf, FinalName, store.Valid, ReadSpec, AsInt32, DirectoryText, Cleaned;
      result := PayloadWriteResult(true, false, None, request.content, "", false);
      if !enablePayloadOffload || request.content == "" {
        return;
      }
      if AsInt32(|request.content|) < offloadThresholdChars {
        return;
      }
      if store == null {
        return result.(succeeded := false, errorCode := "payload_store_unavailable");
      }
      Cleaner(Idle);
      var ref, digits := BuildPayloadRef(request);
      var name := ref + SUFFIX;
      RefMakesFinalName(ref);
      var ok := WritePayloadFileAtomically(name, request.content);
      if !ok {
        return result.(succeeded := false, errorCode := "payload_write_failed");
      }
      var row := MemoryPayloadRef(request.agentId, request.sessionId, UriOf(Where(), name), request.contentType,
                                  BuildPayloadSummary(request), request.toolName, AsInt32(|request.content|),
                                  EMPTY_OBJECT, "");
      var orphan;
      ok, orphan := SaveRow(name, request.content, row);
      if !ok {
        return result.(succeeded := false, errorCode := "payload_write_failed", orphanRemains := orphan);
      }
      StoredPayloadReadsBack(cwd, dataPath, trace, StateIn(Idle), row.uri);
      UriText(cwd, dataPath, ref);
      result := PayloadWriteResult(true, true, Some(row), "[memory-ref: " + row.uri + "]\n" + row.summary, "", false);
    }

    /** `readable` says whether the operating system lets the file be read. */
    method ReadPayload(ref: string, readable: bool) returns (content: Option<string>)
      ensures content == if readable then ReadSpec(cwd, Where(), files, ref) else None
      ensures content.Some? <==>
        && readable && "file://" <= ref
        && var path := Canonical(cwd, ref[7..]);
           && (if dataPath == "" then cwd else Canonical(cwd, dataPath)) + ["memory_runtime", "payloads"] < path
           && path in files && files[path] != ""
      ensures content.Some? ==> content.value == files[Canonical(cwd, ref[7..])]
    {
      PayloadDirectory(cwd, dataPath);
      hide Canonical, DirectoryText;
      if !(SCHEME <= ref) {
        return None;
      }
      var path := Canonical(cwd, ref[|SCHEME|..]);
      var inside := IsPathInsideDirectory(path, Where().resolved);
      if !inside {
        return None;
      }
      if !readable || path !in files {
        return None;
      }
      if files[path] == "" {
        return None;
      }
      return Some(files[path]);
    }
  }

  lemma RenamedHasNoRow(place: Place, trace: seq<State>, s: State)
    requires Reaches(place, trace, s) && s.writer.Renamed?
    ensures UriOf(place, s.writer.name) !in s.rows
  {
    ReachesIsSafe(place, trace, s);
  }

  // ----- What the methods do is a step of the protocol -----

  lemma CleanerIsStep(place: Place, s: State, name: string)
    requires Mentions(name, TEMP_MARK)
    ensures Next(place, s, s.(files := Without(s.files, PathOf(place, name))))
  {
  }

  lemma CrashIsStep(place: Place, s: State)
    ensures Next(place, s, s.(writer := Idle))
  {
  }

  lemma CheckIsStep(place: Place, s: State, name: string, content: string)
    requires s.writer.Idle? && FinalName(name) && content != "" && PathOf(place, name) !in s.files
    ensures Next(place, s, s.(writer := Checked(name, content)))
  {
  }

  lemma OpenIsStep(place: Place, s: State, temp: string)
    requires s.writer.Checked? && Mentions(temp, TEMP_MARK) && PathOf(place, temp) !in s.files
    ensures Next(place, s, s.(writer := TempOpen(s.writer.name, s.writer.content, temp),
                              files := s.files[PathOf(place, temp) := ""]))
  {
  }

  lemma PartialWriteIsStep(place: Place, s: State, part: string)
    requires s.writer.TempOpen? && part <= s.writer.content
    ensures var path := PathOf(place, s.writer.temp);
      Next(place, s, s.(files := if path in s.files then s.files[path := part] else s.files))
  {
    assert IsPrefix(part, s.writer.content);
  }

  lemma WriteIsStep(place: Place, s: State)
    requires s.writer.TempOpen?
    ensures var path := PathOf(place, s.writer.temp);
      Next(place, s, s.(writer := TempWritten(s.writer.name, s.writer.content, s.writer.temp),
                        files := if path in s.files then s.files[path := s.writer.content] else s.files))
  {
  }

  lemma GiveUpIsStep(place: Place, s: State, temp: string)
    requires (s.writer.TempOpen? || s.writer.TempWritten?) && s.writer.temp == temp
    ensures Next(place, s, s.(writer := Idle, files := Without(s.files, PathOf(place, temp))))
  {
  }

  lemma RenameIsStep(place: Place, s: State)
    requires s.writer.TempWritten? && PathOf(place, s.writer.temp) in s.files
    ensures var path := PathOf(place, s.writer.temp);
      Next(place, s, s.(writer := Renamed(s.writer.name, s.writer.content),
                        files := Without(s.files, path)[PathOf(place, s.writer.name) := s.files[path]]))
  {
  }

  lemma SaveIsStep(place: Place, s: State, payload: MemoryPayloadRef)
    requires s.writer.Renamed? && payload.uri == UriOf(place, s.writer.name)
    requires payload.originalChars == AsInt32(|s.writer.content|)
    ensures Next(place, s, s.(writer := Idle, rows := s.rows[payload.uri := payload],
                              written := s.written[payload.uri := Written(s.writer.name, s.writer.content)]))
  {
  }

  lemma CompensateIsStep(place: Place, s: State)
    requires s.writer.Renamed?
    ensures Next(place, s, s.(writer := Idle, files := Without(s.files, PathOf(place, s.writer.name))))
  {
  }

  lemma RefMakesFinalName(ref: string)
    requires forall i :: 0 <= i < |ref| ==> RefChar(ref[i])
    ensures FinalName(ref + SUFFIX)
  {
  }
}
