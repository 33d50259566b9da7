/** What the symbol table and the log writer are for, as values: how a program counter resolves to
    locations, and when a stream of messages announces every id before it is used. */
module Symbols {
  import opened Dictionaries
  import Substitution

  /** A char pointer handed over by a library: NULL or a string. */
  datatype CharPtr = NULL | Str(s: string)

  datatype PcInfo = PcInfo(file: CharPtr, line: int, functionName: CharPtr)

  datatype DlInfo = DlFails | DlInfo(sname: CharPtr, fname: CharPtr)

  /** libbacktrace, dladdr and the unwinder's notion of foreign code, as fixed functions of the pc. */
  datatype Oracle = Oracle(
    pcInfo: nat -> seq<PcInfo>,
    symInfo: nat -> CharPtr,
    dl: nat -> DlInfo,
    isForeign: nat -> bool)

  // ---- resolution without caches ----

  datatype Resolved = Resolved(functionName: string, line: int, file: string)

  const DUNE_PREFIX := "camlDune__exe__"

  function Text(p: CharPtr): string
  {
    if p.Str? then p.s else ""
  }

  /** The name handleSyminfo leaves behind for OCaml code; nothing for foreign code. */
  function SymbolName(o: Oracle, pc: nat): string
  {
    if o.isForeign(pc) then "" else PrettyName(o.symInfo(pc))
  }

  function PrettyName(symbol: CharPtr): string
  {
    if symbol.NULL? then ""
    else if DUNE_PREFIX <= symbol.s then Substitution.Substituted(symbol.s[|DUNE_PREFIX|..], "__", ".")
    else symbol.s
  }

  /** The first name there is: from the debug information, from the symbol table, from the dynamic
      linker, made from the binary's name, or "Unknown". */
  function FunctionName(symbol: string, info: PcInfo, dl: DlInfo): string
  {
    if Text(info.functionName) != "" then Text(info.functionName)
    else if symbol != "" then symbol
    else if dl.DlFails? then "Unknown"
    else if dl.sname.Str? then (if dl.sname.s != "" then dl.sname.s else "Unknown")
    else if dl.fname.Str? then "In " + dl.fname.s
    else "Unknown"
  }

  function FileOf(info: PcInfo, dl: DlInfo): CharPtr
  {
    if info.file.Str? then info.file
    else if dl.DlInfo? then dl.fname
    else NULL
  }

  function Resolve(o: Oracle, pc: nat, info: PcInfo): Resolved
  {
    Resolved(FunctionName(SymbolName(o, pc), info, o.dl(pc)), info.line, Text(FileOf(info, o.dl(pc))))
  }

  /** All locations of a pc; more than one where calls were inlined. */
  function Locations(o: Oracle, pc: nat): (r: seq<Resolved>)
    ensures |r| == |o.pcInfo(pc)|
  {
    seq(|o.pcInfo(pc)|, i requires 0 <= i < |o.pcInfo(pc)| => Resolve(o, pc, o.pcInfo(pc)[i]))
  }

  // ---- what the program keeps ----

  datatype Location = Location(methodId: nat, line: int, file: string, functionName: string)

  /** The locations carry the resolved names and lines, with the ids of this session. */
  ghost predicate Matches(locations: seq<Location>, resolved: seq<Resolved>, methodIds: map<string, nat>)
  {
    && |locations| == |resolved|
    && forall i :: 0 <= i < |locations| ==>
         && locations[i].functionName == resolved[i].functionName
         && locations[i].line == resolved[i].line
         && locations[i].file == resolved[i].file
         && resolved[i].functionName in methodIds
         && locations[i].methodId == methodIds[resolved[i].functionName]
  }

  lemma MatchesExtends(locations: seq<Location>, resolved: seq<Resolved>, a: map<string, nat>, b: map<string, nat>)
    requires Matches(locations, resolved, a) && Extends(a, b)
    ensures Matches(locations, resolved, b)
  {
  }

  lemma NothingMatches(methodIds: map<string, nat>)
    ensures Matches([], [], methodIds)
  {
  }

  /** The first of these that is not empty. */
  function FirstName(candidates: seq<string>): string {
    if candidates == [] then "Unknown" else if candidates[0] != "" then candidates[0] else FirstName(candidates[1..])
  }

  /** The name of a function comes from the debug information, else from the symbol table, which is not asked
      for foreign code, else from the linker, which gives the symbol or else the binary; its file from the debug
      information, else the binary's. */
  lemma NamesComeInThisOrder(o: Oracle, pc: nat, info: PcInfo)
    ensures Resolve(o, pc, info).functionName == FirstName([
      if info.functionName.Str? then info.functionName.s else "",
      if o.isForeign(pc) || o.symInfo(pc).NULL? then "" else PrettyName(o.symInfo(pc)),
      if o.dl(pc).DlFails? then ""
      else if o.dl(pc).sname.Str? then o.dl(pc).sname.s
      else if o.dl(pc).fname.Str? then "In " + o.dl(pc).fname.s
      else ""])
    ensures Resolve(o, pc, info).line == info.line
    ensures info.file.Str? ==> Resolve(o, pc, info).file == info.file.s
    ensures info.file.NULL? && o.dl(pc).DlInfo? && o.dl(pc).fname.Str? ==>
              Resolve(o, pc, info).file == o.dl(pc).fname.s
    ensures info.file.NULL? && (o.dl(pc).DlInfo? ==> o.dl(pc).fname.NULL?) ==> Resolve(o, pc, info).file == ""
  {
    hide PrettyName;
    var debug := if info.functionName.Str? then info.functionName.s else "";
    var symbol := if o.isForeign(pc) || o.symInfo(pc).NULL? then "" else PrettyName(o.symInfo(pc));
    var linked := if o.dl(pc).DlFails? then ""
                  else if o.dl(pc).sname.Str? then o.dl(pc).sname.s
                  else if o.dl(pc).fname.Str? then "In " + o.dl(pc).fname.s
                  else "";
    SymbolNameOf(o, pc);
    FirstOfThree(debug, symbol, linked);
  }

  lemma FirstOfThree(a: string, b: string, c: string)
    ensures FirstName([a, b, c]) == if a != "" then a else if b != "" then b else if c != "" then c else "Unknown"
  {
    assert [a, b, c][1..] == [b, c] && [b, c][1..] == [c] && [c][1..] == [];
    assert FirstName([c]) == if c != "" then c else "Unknown";
    assert FirstName([b, c]) == if b != "" then b else FirstName([c]);
  }

  /** A symbol of the executable's modules loses its prefix, and its pieces are joined by dots. */
  lemma PrettyNames(pieces: seq<string>, symbol: string)
    requires pieces != [] && Substitution.Pieces(symbol, "__") == pieces
    ensures PrettyName(Str("camlDune__exe__" + symbol)) == Substitution.Join(pieces, ".")
    ensures !("camlDune__exe__" <= symbol) ==> PrettyName(Str(symbol)) == symbol
  {
    assert ("camlDune__exe__" + symbol)[15..] == symbol;
  }

  /** The resolution, field by field. */
  lemma ResolutionIs(o: Oracle, pc: nat, info: PcInfo)
    ensures Resolve(o, pc, info) ==
      Resolved(FunctionName(SymbolName(o, pc), info, o.dl(pc)), info.line, Text(FileOf(info, o.dl(pc))))
  {
  }

  lemma OneMatches(o: Oracle, pc: nat, info: PcInfo, location: Location, methodIds: map<string, nat>)
    requires var r := Resolve(o, pc, info);
      r.functionName in methodIds && location == Location(methodIds[r.functionName], r.line, r.file, r.functionName)
    ensures Matches([location], [Resolve(o, pc, info)], methodIds)
  {
  }

  lemma MatchesOneMore(o: Oracle, pc: nat, locations: seq<Location>, i: nat, location: Location,
                       methodIds: map<string, nat>)
    requires i < |o.pcInfo(pc)| && Matches(locations, Locations(o, pc)[..i], methodIds)
    requires Matches([location], [Resolve(o, pc, o.pcInfo(pc)[i])], methodIds)
    ensures Matches(locations + [location], Locations(o, pc)[..i + 1], methodIds)
  {
    hide Resolve;
    assert [location][0] == location;
  }

  lemma SymbolNameOf(o: Oracle, pc: nat)
    ensures SymbolName(o, pc) == if o.isForeign(pc) || o.symInfo(pc).NULL? then "" else PrettyName(o.symInfo(pc))
  {
  }

  /** There is one such list: a cache hit and a resolution done now cannot differ. */
  lemma MatchesDetermines(a: seq<Location>, b: seq<Location>, resolved: seq<Resolved>, methodIds: map<string, nat>)
    requires Matches(a, resolved, methodIds) && Matches(b, resolved, methodIds)
    ensures a == b
  {
    forall i | 0 <= i < |a| ensures a[i] == b[i] {
    }
  }

  // ---- the emitted stream ----

  datatype Frame = Frame(methodId: nat, line: int)

  datatype Message =
    | FileAnnounced(id: nat, name: string)
    | MethodAnnounced(id: nat, name: string, fileId: nat)
    | StackSample(frames: seq<Frame>, errorCode: int, hasMaxFrames: bool)

  predicate IsAnnouncement(m: Message)
  {
    m.FileAnnounced? || m.MethodAnnounced?
  }

  /** What is announced for a file, and for a function with its file's id: nothing if it is known. */
  function NewFile(file: CharPtr, fileIds: map<string, nat>, id: nat): seq<Message> {
    if file.NULL? || file.s in fileIds then [] else [FileAnnounced(id, file.s)]
  }

  function NewMethod(name: string, methodIds: map<string, nat>, id: nat, fileId: nat): seq<Message> {
    if name in methodIds then [] else [MethodAnnounced(id, name, fileId)]
  }

  /** Some message of the stream announces this file, or method, id. */
  predicate FileKnown(stream: seq<Message>, id: nat)
  {
    exists j :: 0 <= j < |stream| && stream[j].FileAnnounced? && stream[j].id == id
  }

  predicate MethodKnown(stream: seq<Message>, id: nat)
  {
    exists j :: 0 <= j < |stream| && stream[j].MethodAnnounced? && stream[j].id == id
  }

  /** Message m may come next after the session's stream so far. */
  predicate MayFollow(stream: seq<Message>, m: Message)
  {
    match m
    case FileAnnounced(_, _) => true
    case MethodAnnounced(_, _, fileId) => fileId == 0 || FileKnown(stream, fileId)
    case StackSample(frames, _, _) => forall i :: 0 <= i < |frames| ==> MethodKnown(stream, frames[i].methodId)
  }

  /** Announce before use, for one session. */
  predicate Announced(stream: seq<Message>)
  {
    forall i :: 0 <= i < |stream| ==> MayFollow(stream[..i], stream[i])
  }

  /** Announced ids grow along the whole stream, over all sessions. */
  predicate IdsGrow(stream: seq<Message>, nextId: nat)
  {
    && (forall i :: 0 <= i < |stream| && IsAnnouncement(stream[i]) ==> 0 < stream[i].id < nextId)
    && (forall i, j :: 0 <= i < j < |stream| && IsAnnouncement(stream[i]) && IsAnnouncement(stream[j])
          ==> stream[i].id < stream[j].id)
  }

  /** The dictionaries say exactly what the session's stream has announced. */
  ghost predicate DictionariesMatch(session: seq<Message>, methodIds: map<string, nat>, fileIds: map<string, nat>)
  {
    && (forall f :: f in fileIds ==> FileAnnounced(fileIds[f], f) in session)
    && (forall m :: m in methodIds ==> MethodNamed(session, methodIds[m], m))
    && (forall i :: 0 <= i < |session| && session[i].FileAnnounced? ==>
          session[i].name in fileIds && fileIds[session[i].name] == session[i].id)
    && (forall i :: 0 <= i < |session| && session[i].MethodAnnounced? ==>
          session[i].name in methodIds && methodIds[session[i].name] == session[i].id)
  }

  predicate MethodNamed(session: seq<Message>, id: nat, name: string)
  {
    exists j :: 0 <= j < |session| && session[j].MethodAnnounced? && session[j].id == id && session[j].name == name
  }

  /** A method was announced for a location: the function of that location, with the file id under which the
      session had announced the location's file, or with 0 if the location has no file. */
  ghost predicate IsFromLocation(o: Oracle, session: seq<Message>, m: Message)
    requires m.MethodAnnounced?
  {
    exists pc: nat, k: nat :: k < |o.pcInfo(pc)| && NamesLocation(o, session, m, pc, k)
  }

  ghost predicate NamesLocation(o: Oracle, session: seq<Message>, m: Message, pc: nat, k: nat)
    requires m.MethodAnnounced? && k < |o.pcInfo(pc)|
  {
    var file := FileOf(o.pcInfo(pc)[k], o.dl(pc));
    && m.name == Locations(o, pc)[k].functionName
    && (if file.NULL? then m.fileId == 0 else m.fileId > 0 && FileAnnounced(m.fileId, file.s) in session)
  }

  /** The whole invariant of the emitted stream; the current session starts at position start. */
  ghost predicate Sound(emitted: seq<Message>, start: nat, nextId: nat, methodIds: map<string, nat>,
                        fileIds: map<string, nat>)
  {
    && start <= |emitted| && nextId > 0
    && Announced(emitted[start..])
    && IdsGrow(emitted, nextId)
    && DictionariesMatch(emitted[start..], methodIds, fileIds)
  }

  /** Message j announces a method under this id, and no other message announces anything under it. */
  predicate SoleAnnouncement(emitted: seq<Message>, j: int, id: nat)
  {
    && 0 <= j < |emitted| && emitted[j].MethodAnnounced? && emitted[j].id == id
    && forall l :: 0 <= l < |emitted| && l != j && IsAnnouncement(emitted[l]) ==> emitted[l].id != id
  }

  /** A method id in a sample was announced exactly once in the session, earlier, and no announcement of
      this or any other session has the same id. */
  lemma SampledIdAnnouncedOnce(emitted: seq<Message>, start: nat, nextId: nat, methodIds: map<string, nat>,
                               fileIds: map<string, nat>, i: nat, k: nat)
    requires Sound(emitted, start, nextId, methodIds, fileIds)
    requires start <= i < |emitted| && emitted[i].StackSample? && k < |emitted[i].frames|
    ensures exists j :: start <= j < i && SoleAnnouncement(emitted, j, emitted[i].frames[k].methodId)
  {
    var session, n := emitted[start..], i - start;
    assert MayFollow(session[..n], session[n]) && session[n] == emitted[i];
    assert MethodKnown(session[..n], emitted[i].frames[k].methodId);
    var j :| 0 <= j < n && session[..n][j].MethodAnnounced? && session[..n][j].id == emitted[i].frames[k].methodId;
    assert emitted[start + j] == session[..n][j];
    forall l | 0 <= l < |emitted| && l != start + j && IsAnnouncement(emitted[l])
      ensures emitted[l].id != emitted[start + j].id
    {
      if l < start + j {
        assert emitted[l].id < emitted[start + j].id;
      } else {
        assert emitted[start + j].id < emitted[l].id;
      }
    }
    assert SoleAnnouncement(emitted, start + j, emitted[i].frames[k].methodId);
  }

  lemma SoundGrows(emitted: seq<Message>, start: nat, nextId: nat, methodIds: map<string, nat>,
                   fileIds: map<string, nat>, m: Message)
    requires Sound(emitted, start, nextId, methodIds, fileIds)
    requires MayFollow(emitted[start..], m)
    requires IsAnnouncement(m) ==> m.id == nextId
    ensures (emitted + [m])[start..] == emitted[start..] + [m]
    ensures Announced((emitted + [m])[start..])
    ensures IdsGrow(emitted + [m], if IsAnnouncement(m) then nextId + 1 else nextId)
  {
    var session := emitted[start..];
    assert (emitted + [m])[start..] == session + [m];
    forall i | 0 <= i < |session| + 1 ensures MayFollow((session + [m])[..i], (session + [m])[i]) {
      assert (session + [m])[..i] == session[..i];
      assert session[..|session|] == session;
      if i < |session| {
        assert MayFollow(session[..i], session[i]);
      }
    }
  }

  lemma FileAdded(emitted: seq<Message>, start: nat, nextId: nat, methodIds: map<string, nat>,
                  fileIds: map<string, nat>, name: string)
    requires Sound(emitted, start, nextId, methodIds, fileIds) && name !in fileIds
    ensures Sound(emitted + [FileAnnounced(nextId, name)], start, nextId + 1, methodIds, fileIds[name := nextId])
  {
    var m := FileAnnounced(nextId, name);
    SoundGrows(emitted, start, nextId, methodIds, fileIds, m);
    MethodsStayNamed(emitted[start..], m, methodIds);
    hide Announced, IdsGrow;
    var session' := emitted[start..] + [m];
    assert session'[|session'| - 1] == m;
  }

  lemma MethodInDictionary(session: seq<Message>, methodIds: map<string, nat>, fileIds: map<string, nat>,
                           id: nat, name: string, fileId: nat)
    requires DictionariesMatch(session, methodIds, fileIds) && name !in methodIds
    ensures DictionariesMatch(session + [MethodAnnounced(id, name, fileId)], methodIds[name := id], fileIds)
  {
    var m := MethodAnnounced(id, name, fileId);
    var session' := session + [m];
    MethodsStayNamed(session, m, methodIds);
    assert session'[|session|] == m;
    assert MethodNamed(session', id, name);
    hide MethodNamed;
    forall i | 0 <= i < |session'| && session'[i].MethodAnnounced?
      ensures session'[i].name in methodIds[name := id] && methodIds[name := id][session'[i].name] == session'[i].id
    {
      if i < |session| {
        assert session[i] == session'[i];
      }
    }
  }

  lemma MethodAdded(emitted: seq<Message>, start: nat, nextId: nat, methodIds: map<string, nat>,
                    fileIds: map<string, nat>, name: string, fileId: nat)
    requires Sound(emitted, start, nextId, methodIds, fileIds) && name !in methodIds
    requires fileId == 0 || FileKnown(emitted[start..], fileId)
    ensures Sound(emitted + [MethodAnnounced(nextId, name, fileId)], start, nextId + 1,
          methodIds[name := nextId], fileIds)
  {
    var m := MethodAnnounced(nextId, name, fileId);
    SoundGrows(emitted, start, nextId, methodIds, fileIds, m);
    MethodInDictionary(emitted[start..], methodIds, fileIds, nextId, name, fileId);
    hide Announced, IdsGrow, MayFollow, DictionariesMatch, FileKnown;
  }

  lemma MethodsStayNamed(session: seq<Message>, m: Message, methodIds: map<string, nat>)
    requires forall n :: n in methodIds ==> MethodNamed(session, methodIds[n], n)
    ensures forall n :: n in methodIds ==> MethodNamed(session + [m], methodIds[n], n)
  {
    forall n | n in methodIds ensures MethodNamed(session + [m], methodIds[n], n) {
      assert MethodNamed(session, methodIds[n], n);
      var j :| 0 <= j < |session| && session[j].MethodAnnounced? && session[j].id == methodIds[n]
            && session[j].name == n;
      assert (session + [m])[j] == session[j];
    }
  }

  ghost predicate IsMethodId(methodIds: map<string, nat>, id: nat)
  {
    exists name :: name in methodIds && methodIds[name] == id
  }

  lemma SampleMayFollow(session: seq<Message>, methodIds: map<string, nat>, fileIds: map<string, nat>,
                        sample: Message)
    requires DictionariesMatch(session, methodIds, fileIds) && sample.StackSample?
    requires forall i :: 0 <= i < |sample.frames| ==> IsMethodId(methodIds, sample.frames[i].methodId)
    ensures MayFollow(session, sample)
  {
    forall i | 0 <= i < |sample.frames| ensures MethodKnown(session, sample.frames[i].methodId) {
      assert IsMethodId(methodIds, sample.frames[i].methodId);
      var name :| name in methodIds && methodIds[name] == sample.frames[i].methodId;
      assert MethodNamed(session, methodIds[name], name);
    }
  }

  lemma SampleAdded(emitted: seq<Message>, start: nat, nextId: nat, methodIds: map<string, nat>,
                    fileIds: map<string, nat>, sample: Message)
    requires Sound(emitted, start, nextId, methodIds, fileIds) && sample.StackSample?
    requires forall i :: 0 <= i < |sample.frames| ==> IsMethodId(methodIds, sample.frames[i].methodId)
    ensures Sound(emitted + [sample], start, nextId, methodIds, fileIds)
  {
    hide Announced, IdsGrow, MayFollow, MethodNamed;
    SampleMayFollow(emitted[start..], methodIds, fileIds, sample);
    SoundGrows(emitted, start, nextId, methodIds, fileIds, sample);
    MethodsStayNamed(emitted[start..], sample, methodIds);
  }

  /** Every method of the session was announced for a location of some pc, with the file of that location. */
  ghost predicate MethodsHaveFiles(o: Oracle, emitted: seq<Message>, start: nat)
  {
    forall i :: start <= i < |emitted| && emitted[i].MethodAnnounced? ==>
      IsFromLocation(o, emitted[start..i], emitted[i])
  }

  lemma OtherKeepsFiles(o: Oracle, emitted: seq<Message>, start: nat, m: Message)
    requires MethodsHaveFiles(o, emitted, start) && !m.MethodAnnounced?
    ensures MethodsHaveFiles(o, emitted + [m], start)
  {
    hide IsFromLocation;
    var more := emitted + [m];
    forall i | start <= i < |more| && more[i].MethodAnnounced? ensures IsFromLocation(o, more[start..i], more[i]) {
      assert more[start..i] == emitted[start..i] && more[i] == emitted[i];
    }
  }

  lemma MethodKeepsFiles(o: Oracle, emitted: seq<Message>, start: nat, m: Message, pc: nat, k: nat)
    requires MethodsHaveFiles(o, emitted, start) && m.MethodAnnounced? && start <= |emitted| && k < |o.pcInfo(pc)|
    requires NamesLocation(o, emitted[start..], m, pc, k)
    ensures MethodsHaveFiles(o, emitted + [m], start)
  {
    hide NamesLocation;
    var more := emitted + [m];
    forall i | start <= i < |more| && more[i].MethodAnnounced? ensures IsFromLocation(o, more[start..i], more[i]) {
      if i < |emitted| {
        assert more[start..i] == emitted[start..i] && more[i] == emitted[i];
      } else {
        assert more[start..i] == emitted[start..] && more[i] == m;
      }
    }
  }

  /** What is announced for a location of a pc keeps every method with its file. */
  lemma NamesKeepFiles(o: Oracle, emitted: seq<Message>, start: nat, nextId: nat, methodIds: map<string, nat>,
                       fileIds: map<string, nat>, pc: nat, k: nat, fileId: nat, methodId: nat)
    requires Sound(emitted, start, nextId, methodIds, fileIds) && MethodsHaveFiles(o, emitted, start)
    requires k < |o.pcInfo(pc)|
    requires var file := FileOf(o.pcInfo(pc)[k], o.dl(pc));
      if file.NULL? then fileId == 0 else fileId > 0 && (file.s in fileIds ==> fileId == fileIds[file.s])
    ensures MethodsHaveFiles(o, emitted + (NewFile(FileOf(o.pcInfo(pc)[k], o.dl(pc)), fileIds, fileId)
              + NewMethod(Resolve(o, pc, o.pcInfo(pc)[k]).functionName, methodIds, methodId, fileId)), start)
  {
    hide MethodsHaveFiles, Announced, IdsGrow, Resolve, MethodNamed, FileOf;
    var file, name := FileOf(o.pcInfo(pc)[k], o.dl(pc)), Resolve(o, pc, o.pcInfo(pc)[k]).functionName;
    var files, methods := NewFile(file, fileIds, fileId), NewMethod(name, methodIds, methodId, fileId);
    var named := emitted + files;
    if files == [] {
      assert named == emitted;
    } else {
      OtherKeepsFiles(o, emitted, start, files[0]);
      assert named[start..][|named[start..]| - 1] == files[0];
    }
    if file.Str? && files == [] {
      assert FileAnnounced(fileIds[file.s], file.s) in emitted[start..];
    }
    if methods == [] {
      assert emitted + (files + methods) == named;
    } else {
      assert Locations(o, pc)[k] == Resolve(o, pc, o.pcInfo(pc)[k]);
      MethodKeepsFiles(o, named, start, methods[0], pc, k);
      assert emitted + (files + methods) == named + [methods[0]];
    }
  }

  /** Clearing the dictionaries starts a new session; ids go on from where they were. */
  lemma SessionStarts(emitted: seq<Message>, start: nat, nextId: nat, methodIds: map<string, nat>,
                      fileIds: map<string, nat>)
    requires Sound(emitted, start, nextId, methodIds, fileIds)
    ensures Sound(emitted, |emitted|, nextId, map[], map[])
  {
  }

  // ---- what arrives ----

  /** The messages that were sent, if ok says which. */
  function Arrived(session: seq<Message>, ok: seq<bool>): seq<Message>
    requires |ok| == |session|
  {
    if session == [] then []
    else
      var n := |session| - 1;
      Arrived(session[..n], ok[..n]) + if ok[n] then [session[n]] else []
  }

  /** Message m needs the id that message a announces. */
  predicate Needs(m: Message, a: Message)
  {
    match m
    case FileAnnounced(_, _) => false
    case MethodAnnounced(_, _, fileId) => fileId != 0 && a.FileAnnounced? && a.id == fileId
    case StackSample(frames, _, _) =>
      a.MethodAnnounced? && exists k :: 0 <= k < |frames| && frames[k].methodId == a.id
  }

  /** No announcement was lost that a message needs which was sent. */
  predicate NothingNeededIsLost(session: seq<Message>, ok: seq<bool>)
    requires |ok| == |session|
  {
    forall j, i :: 0 <= j < i < |session| && ok[i] && Needs(session[i], session[j]) ==> ok[j]
  }

  predicate NeededArrived(session: seq<Message>, ok: seq<bool>, m: Message)
    requires |ok| == |session|
  {
    forall j :: 0 <= j < |session| && Needs(m, session[j]) ==> ok[j]
  }

  predicate ArrivedAt(session: seq<Message>, ok: seq<bool>, j: int)
    requires |ok| == |session|
  {
    0 <= j < |session| && ok[j]
  }

  lemma {:induction false} KnownIfArrived(session: seq<Message>, ok: seq<bool>, id: nat)
    requires |ok| == |session|
    ensures FileKnown(Arrived(session, ok), id)
       <==> exists j :: ArrivedAt(session, ok, j) && session[j].FileAnnounced? && session[j].id == id
    ensures MethodKnown(Arrived(session, ok), id)
       <==> exists j :: ArrivedAt(session, ok, j) && session[j].MethodAnnounced? && session[j].id == id
  {
    if session != [] {
      var n := |session| - 1;
      var before := Arrived(session[..n], ok[..n]);
      KnownIfArrived(session[..n], ok[..n], id);
      KnownOneMore(before, session[n], id);
      assert forall j :: ArrivedAt(session[..n], ok[..n], j) <==> ArrivedAt(session, ok, j) && j < n;
      assert forall j :: 0 <= j < n ==> session[..n][j] == session[j];
      assert ArrivedAt(session, ok, n) <==> ok[n];
    }
  }

  lemma KnownOneMore(stream: seq<Message>, m: Message, id: nat)
    ensures FileKnown(stream + [m], id) <==> FileKnown(stream, id) || (m.FileAnnounced? && m.id == id)
    ensures MethodKnown(stream + [m], id) <==> MethodKnown(stream, id) || (m.MethodAnnounced? && m.id == id)
  {
    var more := stream + [m];
    assert more[|stream|] == m;
    assert forall j :: 0 <= j < |stream| ==> more[j] == stream[j];
  }

  lemma AnnouncedOneMore(stream: seq<Message>, m: Message)
    ensures Announced(stream + [m]) <==> Announced(stream) && MayFollow(stream, m)
  {
    hide MayFollow;
    var more := stream + [m];
    assert more[..|stream|] == stream && more[|stream|] == m;
    assert forall i :: 0 <= i < |stream| ==> more[..i] == stream[..i] && more[i] == stream[i];
  }

  /** A message that may follow what was emitted may follow what was sent of it if and only if nothing it
      needs was lost. */
  lemma MayFollowIfArrived(session: seq<Message>, ok: seq<bool>, m: Message, nextId: nat)
    requires |ok| == |session| && IdsGrow(session, nextId) && MayFollow(session, m)
    ensures MayFollow(Arrived(session, ok), m)
       <==> NeededArrived(session, ok, m)
  {
    hide Arrived;
    match m
    case FileAnnounced(_, _) =>
    case MethodAnnounced(_, _, fileId) =>
      if fileId != 0 {
        KnownIfArrived(session, ok, fileId);
        var j :| 0 <= j < |session| && session[j].FileAnnounced? && session[j].id == fileId;
        assert ArrivedAt(session, ok, j) <==> ok[j];
      }
    case StackSample(frames, _, _) =>
      forall k | 0 <= k < |frames|
        ensures MethodKnown(Arrived(session, ok), frames[k].methodId)
           <==> forall j :: 0 <= j < |session| && session[j].MethodAnnounced? && session[j].id == frames[k].methodId
                  ==> ok[j]
      {
        KnownIfArrived(session, ok, frames[k].methodId);
        assert MethodKnown(session, frames[k].methodId);
        var j :| 0 <= j < |session| && session[j].MethodAnnounced? && session[j].id == frames[k].methodId;
        assert ArrivedAt(session, ok, j) <==> ok[j];
      }
  }

  lemma LostOneMore(session: seq<Message>, ok: seq<bool>)
    requires |ok| == |session| && session != []
    ensures var n := |session| - 1;
      NothingNeededIsLost(session, ok)
      <==> NothingNeededIsLost(session[..n], ok[..n])
           && (ok[n] ==> NeededArrived(session[..n], ok[..n], session[n]))
  {
    hide Needs;
    var n := |session| - 1;
    assert forall j :: 0 <= j < n ==> session[..n][j] == session[j] && ok[..n][j] == ok[j];
  }

  lemma NothingArrives()
    ensures Announced([]) && NothingNeededIsLost([], [])
  {
  }

  lemma IdsGrewBefore(session: seq<Message>, nextId: nat, n: nat)
    requires n <= |session| && IdsGrow(session, nextId)
    ensures IdsGrow(session[..n], nextId)
  {
  }

  lemma {:induction false} AnnouncedIfArrived(session: seq<Message>, ok: seq<bool>, nextId: nat)
    requires |ok| == |session| && IdsGrow(session, nextId) && Announced(session)
    ensures Announced(Arrived(session, ok)) <==> NothingNeededIsLost(session, ok)
  {
    hide MayFollow, Needs, Announced, NothingNeededIsLost, NeededArrived, IdsGrow;
    if session == [] {
      NothingArrives();
    } else {
      var n := |session| - 1;
      var before := session[..n];
      assert before + [session[n]] == session;
      IdsGrewBefore(session, nextId, n);
      AnnouncedOneMore(before, session[n]);
      AnnouncedIfArrived(before, ok[..n], nextId);
      MayFollowIfArrived(before, ok[..n], session[n], nextId);
      AnnouncedOneMore(Arrived(before, ok[..n]), session[n]);
      LostOneMore(session, ok);
      assert Arrived(before, ok[..n]) + [] == Arrived(before, ok[..n]);
    }
  }

  /** What arrives of a session announces every id before it is used if and only if no announcement was lost
      that a message needs which was sent; so it does if every announcement was sent. */
  lemma WireAnnouncesBeforeUse(emitted: seq<Message>, start: nat, nextId: nat, methodIds: map<string, nat>,
                               fileIds: map<string, nat>, arrived: seq<bool>)
    requires Sound(emitted, start, nextId, methodIds, fileIds) && |arrived| == |emitted|
    ensures Announced(Arrived(emitted[start..], arrived[start..]))
       <==> NothingNeededIsLost(emitted[start..], arrived[start..])
    ensures (forall i :: start <= i < |emitted| && IsAnnouncement(emitted[i]) ==> arrived[i]) ==>
              Announced(Arrived(emitted[start..], arrived[start..]))
  {
    hide MayFollow;
    var session, ok := emitted[start..], arrived[start..];
    assert IdsGrow(session, nextId);
    AnnouncedIfArrived(session, ok, nextId);
    if forall i :: start <= i < |emitted| && IsAnnouncement(emitted[i]) ==> arrived[i] {
      forall j, i | 0 <= j < i < |session| && ok[i] && Needs(session[i], session[j]) ensures ok[j] {
        assert IsAnnouncement(emitted[start + j]);
      }
    }
  }

  lemma NothingIsSound()
    ensures Sound([], 0, 1, map[], map[])
  {
  }

  lemma NeededLost(session: seq<Message>, ok: seq<bool>)
    requires |session| == |ok| == 2 && !ok[0] && ok[1]
    requires session[0].MethodAnnounced? && session[1].StackSample?
    requires |session[1].frames| == 1 && session[1].frames[0].methodId == session[0].id
    ensures !NothingNeededIsLost(session, ok)
  {
    assert session[1].frames[0].methodId == session[0].id;
    assert Needs(session[1], session[0]);
  }

  /** The failing stream: the announcement is lost without a disconnect, and the sample is sent. */
  lemma LostAnnouncementUnnamesSample(name: string, line: int)
    ensures var emitted := [MethodAnnounced(1, name, 0), StackSample([Frame(1, line)], 0, false)];
            && Sound(emitted, 0, 2, map[name := 1], map[])
            && !Announced(Arrived(emitted, [false, true]))
  {
    hide Announced, NothingNeededIsLost, IdsGrow, DictionariesMatch, Arrived, Sound, MayFollow;
    var announcement, sample := MethodAnnounced(1, name, 0), StackSample([Frame(1, line)], 0, false);
    var emitted := [announcement, sample];
    NothingIsSound();
    MethodAdded([], 0, 1, map[], map[], name, 0);
    assert [] + [announcement] == [announcement] && map[][name := 1] == map[name := 1];
    var ids := map[name := 1];
    assert name in ids && ids[name] == 1;
    SampleAdded([announcement], 0, 2, ids, map[], sample);
    assert [announcement] + [sample] == emitted && emitted[0..] == emitted;
    WireAnnouncesBeforeUse(emitted, 0, 2, map[name := 1], map[], [false, true]);
    assert [false, true][0..] == [false, true];
    assert !NothingNeededIsLost(emitted, [false, true]) by {
      NeededLost(emitted, [false, true]);
    }
  }
}
