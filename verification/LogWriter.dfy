/** The symbol table with its caches (lib/symbol_table.cpp) and the log writer that announces ids and
    sends stack samples (lib/log_writer.cpp). */
module LogWriters {
  import opened Dictionaries
  import opened Frames
  import opened Symbols
  import Substitution

  /** Everything handed to recordWithSize, in order, and which of it the network has sent. The log writer
      does not look at that. */
  class Output {
    var emitted: seq<Message>
    var arrived: seq<bool>

    constructor ()
      ensures emitted == [] && arrived == []
    {
      emitted, arrived := [], [];
    }

    method RecordWithSize(m: Message)
      modifies this
      ensures emitted == old(emitted) + [m]
      ensures |arrived| == |old(arrived)| + 1 && old(arrived) <= arrived
    {
      var ok: bool := *;
      emitted, arrived := emitted + [m], arrived + [ok];
    }
  }

  class SymbolTable {
    const output: Output
    const oracle: Oracle
    var nextId: nat
    var knownAddrToLocations: map<nat, seq<Location>>
    var knownMethodToIds: map<string, nat>
    var knownFileToIds: map<string, nat>
    var currentLocations: seq<Location>
    var currentSymbolName: string
    ghost var sessionStart: nat

    ghost predicate Valid()
      reads this, output
    {
      && Sound(output.emitted, sessionStart, nextId, knownMethodToIds, knownFileToIds)
      && |output.arrived| == |output.emitted|
      && forall pc :: pc in knownAddrToLocations ==>
           Matches(knownAddrToLocations[pc], Locations(oracle, pc), knownMethodToIds)
    }

    /** Nothing has happened but announcements: no id has changed. */
    twostate predicate OnlyAnnounced()
      reads this, output
    {
      && old(output.emitted) <= output.emitted
      && (forall i :: |old(output.emitted)| <= i < |output.emitted| ==> IsAnnouncement(output.emitted[i]))
      && sessionStart == old(sessionStart)
      && Extends(old(knownMethodToIds), knownMethodToIds)
      && Extends(old(knownFileToIds), knownFileToIds)
    }

    twostate predicate Emitted(messages: seq<Message>)
      reads this, output
    {
      output.emitted == old(output.emitted) + messages
    }

    /** The id of a file that has one, and 0 for no file. */
    function FileId(file: CharPtr): nat
      reads this`knownFileToIds
    {
      if file.Str? && file.s in knownFileToIds then knownFileToIds[file.s] else 0
    }

    constructor (output: Output, oracle: Oracle)
      requires output.emitted == [] && output.arrived == []
      ensures Valid() && this.output == output && this.oracle == oracle && sessionStart == 0
    {
      this.output := output;
      this.oracle := oracle;
      nextId := 1;
      knownAddrToLocations, knownMethodToIds, knownFileToIds := map[], map[], map[];
      currentLocations, currentSymbolName := [], "";
      sessionStart := 0;
    }

    method RecordFile(fileName: string) returns (fileId: nat)
      requires Valid()
      modifies this`nextId, this`knownFileToIds, output
      ensures Valid() && OnlyAnnounced()
      ensures knownMethodToIds == old(knownMethodToIds)
      ensures fileId > 0 && FileKnown(output.emitted[sessionStart..], fileId)
      ensures fileName in knownFileToIds && knownFileToIds[fileName] == fileId
      ensures Extends(old(knownFileToIds), knownFileToIds)
      ensures Emitted(NewFile(Str(fileName), old(knownFileToIds), fileId))
    {
      hide Sound, FileKnown, Matches;
      if fileName in knownFileToIds {
        fileId := knownFileToIds[fileName];
      } else {
        fileId := nextId;
        FileAdded(output.emitted, sessionStart, nextId, knownMethodToIds, knownFileToIds, fileName);
        nextId := nextId + 1;
        knownFileToIds := knownFileToIds[fileName := fileId];
        output.RecordWithSize(FileAnnounced(fileId, fileName));
      }
      FileIdKnown(output.emitted, sessionStart, nextId, knownMethodToIds, knownFileToIds, fileName);
    }

    /** Called once for each location of a pc, with whatever the debug information has: announces the file and
        the function if they are new, the function with its file, and adds the location. */
    method HandlePcInfo(pc: nat, info: PcInfo)
      requires Valid() && currentSymbolName == SymbolName(oracle, pc)
      modifies this`nextId, this`knownFileToIds, this`knownMethodToIds, this`currentLocations, output
      ensures Valid() && OnlyAnnounced()
      ensures var r, file := Resolve(oracle, pc, info), FileOf(info, oracle.dl(pc));
        && r.functionName in knownMethodToIds
        && currentLocations ==
             old(currentLocations) + [Location(knownMethodToIds[r.functionName], r.line, r.file, r.functionName)]
        && (file.Str? ==> FileId(file) > 0)
        && Emitted(NewFile(file, old(knownFileToIds), FileId(file))
                   + NewMethod(r.functionName, old(knownMethodToIds), knownMethodToIds[r.functionName], FileId(file)))
    {
      hide Sound, SymbolName, Locations, Matches, Extends, FileKnown, IsAnnouncement, Resolve, FileOf, FunctionName;
      hide NewFile, NewMethod;
      var functionName, fileName, fileId := FindNames(pc, info);
      var functionId := RecordFunction(functionName, fileId);
      currentLocations := currentLocations + [Location(functionId, info.line, fileName, functionName)];
      ResolutionIs(oracle, pc, info);
    }

    /** The first part of handlePcInfo: the names, from the debug information or else the fallbacks. */
    method FindNames(pc: nat, info: PcInfo) returns (functionName: string, fileName: string, fileId: nat)
      requires Valid() && currentSymbolName == SymbolName(oracle, pc)
      modifies this`nextId, this`knownFileToIds, output
      ensures Valid() && OnlyAnnounced() && knownMethodToIds == old(knownMethodToIds)
      ensures functionName == FunctionName(currentSymbolName, info, oracle.dl(pc))
      ensures var file := FileOf(info, oracle.dl(pc));
        && fileName == Text(file) && fileId == FileId(file) && (file.Str? <==> fileId > 0)
        && (fileId > 0 ==> FileKnown(output.emitted[sessionStart..], fileId))
        && Emitted(NewFile(file, old(knownFileToIds), fileId))
    {
      hide Sound, SymbolName, Locations, Matches, FileKnown, IsAnnouncement;
      fileId, fileName := 0, "";
      if info.file.Str? {
        fileName := info.file.s;
        fileId := RecordFile(fileName);
      }
      functionName := "";
      if info.functionName.Str? {
        functionName := info.functionName.s;
      }
      if functionName == "" && currentSymbolName != "" {
        functionName := currentSymbolName;
      }
      if functionName == "" || fileId == 0 {
        var dlInfo := oracle.dl(pc);
        if dlInfo.DlInfo? {
          if functionName == "" {
            if dlInfo.sname.Str? {
              functionName := dlInfo.sname.s;
            } else if dlInfo.fname.Str? {
              functionName := "In " + dlInfo.fname.s;
            }
          }
          if fileId == 0 && dlInfo.fname.Str? {
            fileName := dlInfo.fname.s;
            fileId := RecordFile(fileName);
          }
        }
      }
      if functionName == "" {
        functionName := "Unknown";
      }
    }

    /** The last part of handlePcInfo: find the id of a function name, or give it one. */
    method RecordFunction(functionName: string, fileId: nat) returns (functionId: nat)
      requires Valid()
      requires fileId == 0 || FileKnown(output.emitted[sessionStart..], fileId)
      modifies this`nextId, this`knownMethodToIds, output
      ensures Valid() && OnlyAnnounced()
      ensures functionName in knownMethodToIds && knownMethodToIds[functionName] == functionId
      ensures Emitted(NewMethod(functionName, old(knownMethodToIds), functionId, fileId))
    {
      hide Sound, Locations;
      if functionName in knownMethodToIds {
        functionId := knownMethodToIds[functionName];
      } else {
        functionId := nextId;
        MethodAdded(output.emitted, sessionStart, nextId, knownMethodToIds, knownFileToIds, functionName, fileId);
        nextId := nextId + 1;
        ghost var before := knownMethodToIds;
        knownMethodToIds := knownMethodToIds[functionName := functionId];
        output.RecordWithSize(MethodAnnounced(functionId, functionName, fileId));
        forall pc | pc in knownAddrToLocations
          ensures Matches(knownAddrToLocations[pc], Locations(oracle, pc), knownMethodToIds)
        {
          MatchesExtends(knownAddrToLocations[pc], Locations(oracle, pc), before, knownMethodToIds);
        }
      }
    }

    method HandleSyminfo(symbol: CharPtr)
      modifies this`currentSymbolName
      ensures currentSymbolName == if symbol.NULL? then old(currentSymbolName) else PrettyName(symbol)
    {
      if symbol.Str? {
        if DUNE_PREFIX <= symbol.s {
          currentSymbolName := symbol.s[|DUNE_PREFIX|..];
          currentSymbolName := Substitution.SubstituteOption(currentSymbolName, "__", ".");
        } else {
          currentSymbolName := symbol.s;
        }
      }
    }

    /** Cached or not, the result is the resolution of the pc with the ids of this session. */
    method LookupLocations(pc: nat, isForeign: bool) returns (locations: seq<Location>)
      requires Valid() && isForeign == oracle.isForeign(pc)
      modifies this, output
      ensures Valid() && OnlyAnnounced()
      ensures Matches(locations, Locations(oracle, pc), knownMethodToIds)
      ensures old(MethodsHaveFiles(oracle, output.emitted, sessionStart)) ==>
                MethodsHaveFiles(oracle, output.emitted, sessionStart)
    {
      hide Sound, Matches, Locations, Resolve, SymbolName, MethodsHaveFiles, FileOf, NewFile, NewMethod, IsAnnouncement;
      if pc in knownAddrToLocations {
        return knownAddrToLocations[pc];
      }
      currentLocations := [];
      currentSymbolName := "";
      if !isForeign {
        HandleSyminfo(oracle.symInfo(pc));
      }
      SymbolNameOf(oracle, pc);
      var infos := oracle.pcInfo(pc);
      var i := 0;
      NothingMatches(knownMethodToIds);
      while i < |infos|
        invariant 0 <= i <= |infos|
        invariant Valid() && OnlyAnnounced() && currentSymbolName == SymbolName(oracle, pc)
        invariant Matches(currentLocations, Locations(oracle, pc)[..i], knownMethodToIds) && |currentLocations| == i
        invariant old(MethodsHaveFiles(oracle, output.emitted, sessionStart)) ==>
                    MethodsHaveFiles(oracle, output.emitted, sessionStart)
      {
        ghost var before := currentLocations;
        ghost var ids, files, stream, next := knownMethodToIds, knownFileToIds, output.emitted, nextId;
        HandlePcInfo(pc, infos[i]);
        if MethodsHaveFiles(oracle, stream, sessionStart) {
          NamesKeepFiles(oracle, stream, sessionStart, next, ids, files, pc, i,
                         FileId(FileOf(infos[i], oracle.dl(pc))), currentLocations[i].methodId);
        }
        MatchesExtends(before, Locations(oracle, pc)[..i], ids, knownMethodToIds);
        ghost var location := currentLocations[i];
        OneMatches(oracle, pc, infos[i], location, knownMethodToIds);
        MatchesOneMore(oracle, pc, before, i, location, knownMethodToIds);
        i := i + 1;
      }
      knownAddrToLocations := knownAddrToLocations[pc := currentLocations];
      assert Locations(oracle, pc)[..|infos|] == Locations(oracle, pc);
      return currentLocations;
    }

    method ClearSymbols()
      requires Valid()
      modifies this
      ensures Valid() && sessionStart == |output.emitted| && nextId == old(nextId)
      ensures knownMethodToIds == map[] && knownFileToIds == map[] && knownAddrToLocations == map[]
      ensures MethodsHaveFiles(oracle, output.emitted, sessionStart)
    {
      SessionStarts(output.emitted, sessionStart, nextId, knownMethodToIds, knownFileToIds);
      knownAddrToLocations, knownMethodToIds, knownFileToIds := map[], map[], map[];
      sessionStart := |output.emitted|;
    }
  }

  /** A CallTrace: a buffer of frames and how many of them count; negative after an unwinding error. */
  datatype CallTrace = CallTrace(frames: seq<CallFrame>, numFrames: int)

  const MAX_FRAMES: nat := 256

  function Depth(trace: CallTrace): nat
  {
    if trace.numFrames < 0 then -trace.numFrames else trace.numFrames
  }

  /** The frames of a trace are inside its buffer, and its foreign flags are those of the oracle. */
  predicate Readable(o: Oracle, trace: CallTrace)
  {
    && Depth(trace) <= |trace.frames|
    && forall i :: 0 <= i < Depth(trace) ==> trace.frames[i].isForeign == o.isForeign(trace.frames[i].frame)
  }

  /** The resolved locations of the frames first..end of a trace, in order. */
  function Expected(o: Oracle, frames: seq<CallFrame>, first: nat, end: nat): seq<Resolved>
    requires end <= |frames|
  {
    if end <= first then [] else Expected(o, frames, first, end - 1) + Locations(o, frames[end - 1].frame)
  }

  /** A compressed frame stands for a resolved location in a session. */
  predicate Compresses(frames: seq<Frame>, resolved: seq<Resolved>, methodIds: map<string, nat>)
  {
    && |frames| == |resolved|
    && forall i :: 0 <= i < |frames| ==>
         && resolved[i].functionName in methodIds
         && frames[i] == Frame(methodIds[resolved[i].functionName], resolved[i].line)
  }

  function Compressed(locations: seq<Location>): (frames: seq<Frame>)
    ensures |frames| == |locations|
    ensures forall i :: 0 <= i < |frames| ==> frames[i] == Frame(locations[i].methodId, locations[i].line)
  {
    if locations == [] then []
    else
      var last := |locations| - 1;
      Compressed(locations[..last]) + [Frame(locations[last].methodId, locations[last].line)]
  }

  class LogWriter {
    const symbols: SymbolTable
    const output: Output

    ghost predicate Valid()
      reads this, symbols, symbols.output
    {
      output == symbols.output && symbols.Valid()
    }

    constructor (symbols: SymbolTable)
      requires symbols.Valid()
      ensures Valid() && this.symbols == symbols
    {
      this.symbols := symbols;
      this.output := symbols.output;
    }

    /** Adds the locations of one pc to the sample, unless the trace is an error. */
    method AddFrames(locations: seq<Location>, frames0: seq<Frame>, isError: bool) returns (frames: seq<Frame>)
      ensures frames == if isError then frames0 else frames0 + Compressed(locations)
    {
      frames := frames0;
      var i := 0;
      while i < |locations|
        invariant 0 <= i <= |locations|
        invariant frames == if isError then frames0 else frames0 + Compressed(locations[..i])
      {
        if !isError {
          frames := frames + [Frame(locations[i].methodId, locations[i].line)];
        }
        assert locations[..i + 1][..i] == locations[..i];
        i := i + 1;
      }
      assert locations[..|locations|] == locations;
    }

    /** Emits the announcements that are still missing, then the sample: one compressed frame for each
        location of each frame outside the signal handler, and none for a broken trace. */
    method RecordStackTrace(trace: CallTrace)
      requires Valid() && Readable(symbols.oracle, trace)
      modifies symbols, output
      ensures Valid() && symbols.sessionStart == old(symbols.sessionStart)
      ensures Extends(old(symbols.knownMethodToIds), symbols.knownMethodToIds)
      ensures old(MethodsHaveFiles(symbols.oracle, output.emitted, symbols.sessionStart)) ==>
                MethodsHaveFiles(symbols.oracle, output.emitted, symbols.sessionStart)
      ensures |output.emitted| > |old(output.emitted)| && old(output.emitted) <= output.emitted
      ensures forall i :: |old(output.emitted)| <= i < |output.emitted| - 1 ==> IsAnnouncement(output.emitted[i])
      ensures var sample := output.emitted[|output.emitted| - 1];
        && sample.StackSample?
        && sample.errorCode == (if trace.numFrames < 0 then trace.numFrames else 0)
        && sample.hasMaxFrames == (Depth(trace) >= MAX_FRAMES)
        && Compresses(sample.frames,
             if trace.numFrames < 0 then []
             else Expected(symbols.oracle, trace.frames, NUMBER_OF_SIGNAL_HANDLER_FRAMES, Depth(trace)),
             symbols.knownMethodToIds)
    {
      hide Sound, Locations, Expected, Matches, Compresses, Compressed, MethodsHaveFiles;
      var numFrames := trace.numFrames;
      var isError := numFrames < 0;
      var errorCode := if isError then numFrames else 0;
      if isError {
        numFrames := -1 * numFrames;
      }
      var frames: seq<Frame> := [];
      var frameIndex := NUMBER_OF_SIGNAL_HANDLER_FRAMES;
      ghost var expected := [];
      NothingCompresses(symbols.knownMethodToIds);
      NothingExpected(symbols.oracle, trace.frames,
                      if numFrames <= frameIndex then numFrames else frameIndex);
      while frameIndex < numFrames
        invariant NUMBER_OF_SIGNAL_HANDLER_FRAMES <= frameIndex
        invariant frameIndex <= numFrames || frameIndex == NUMBER_OF_SIGNAL_HANDLER_FRAMES
        invariant Valid() && symbols.OnlyAnnounced()
        invariant old(MethodsHaveFiles(symbols.oracle, output.emitted, symbols.sessionStart)) ==>
                    MethodsHaveFiles(symbols.oracle, output.emitted, symbols.sessionStart)
        invariant expected == if isError || numFrames < frameIndex then [] else
          Expected(symbols.oracle, trace.frames, NUMBER_OF_SIGNAL_HANDLER_FRAMES, frameIndex)
        invariant Compresses(frames, expected, symbols.knownMethodToIds)
      {
        ghost var ids := symbols.knownMethodToIds;
        var locations := symbols.LookupLocations(trace.frames[frameIndex].frame, trace.frames[frameIndex].isForeign);
        CompressesExtends(frames, expected, ids, symbols.knownMethodToIds);
        var frames' := AddFrames(locations, frames, isError);
        CompressesMore(frames, expected, locations, Locations(symbols.oracle, trace.frames[frameIndex].frame),
                       symbols.knownMethodToIds);
        frames := frames';
        ExpectedOneMore(symbols.oracle, trace.frames, frameIndex);
        frameIndex := frameIndex + 1;
        expected := if isError then [] else expected + Locations(symbols.oracle, trace.frames[frameIndex - 1].frame);
      }
      CompressedIds(frames, expected, symbols.knownMethodToIds);
      RecordSample(StackSample(frames, errorCode, numFrames >= MAX_FRAMES));
    }

    method RecordSample(sample: Message)
      requires Valid() && sample.StackSample?
      requires forall i :: 0 <= i < |sample.frames| ==> IsMethodId(symbols.knownMethodToIds, sample.frames[i].methodId)
      modifies output
      ensures Valid() && output.emitted == old(output.emitted) + [sample]
      ensures old(MethodsHaveFiles(symbols.oracle, output.emitted, symbols.sessionStart)) ==>
                MethodsHaveFiles(symbols.oracle, output.emitted, symbols.sessionStart)
    {
      hide Sound, Locations, Matches, MethodsHaveFiles, IsMethodId;
      SampleAdded(output.emitted, symbols.sessionStart, symbols.nextId, symbols.knownMethodToIds,
                  symbols.knownFileToIds, sample);
      if MethodsHaveFiles(symbols.oracle, output.emitted, symbols.sessionStart) {
        OtherKeepsFiles(symbols.oracle, output.emitted, symbols.sessionStart, sample);
      }
      output.RecordWithSize(sample);
    }

    /** What was sent of the current session announces every id before it is used, unless an announcement that
        a sent message needs was lost. */
    lemma SentSessionIsAnnounced()
      requires Valid()
      ensures var session, ok := output.emitted[symbols.sessionStart..], output.arrived[symbols.sessionStart..];
              Announced(Arrived(session, ok)) <==> NothingNeededIsLost(session, ok)
    {
      hide Announced, Arrived, NothingNeededIsLost, IdsGrow, DictionariesMatch;
      WireAnnouncesBeforeUse(output.emitted, symbols.sessionStart, symbols.nextId, symbols.knownMethodToIds,
                             symbols.knownFileToIds, output.arrived);
    }

    /** A new session with the collector starts with empty dictionaries. */
    method OnSocketConnected()
      requires Valid()
      modifies symbols
      ensures Valid() && symbols.sessionStart == |output.emitted| && output.emitted == old(output.emitted)
      ensures symbols.nextId == old(symbols.nextId)
      ensures MethodsHaveFiles(symbols.oracle, output.emitted, symbols.sessionStart)
    {
      symbols.ClearSymbols();
    }
  }

  lemma NothingExpected(o: Oracle, frames: seq<CallFrame>, end: nat)
    requires end <= NUMBER_OF_SIGNAL_HANDLER_FRAMES && end <= |frames|
    ensures Expected(o, frames, NUMBER_OF_SIGNAL_HANDLER_FRAMES, end) == []
  {
  }

  lemma ExpectedOneMore(o: Oracle, frames: seq<CallFrame>, i: nat)
    requires NUMBER_OF_SIGNAL_HANDLER_FRAMES <= i < |frames|
    ensures Expected(o, frames, NUMBER_OF_SIGNAL_HANDLER_FRAMES, i + 1)
         == Expected(o, frames, NUMBER_OF_SIGNAL_HANDLER_FRAMES, i) + Locations(o, frames[i].frame)
  {
  }

  lemma NothingCompresses(methodIds: map<string, nat>)
    ensures Compresses([], [], methodIds)
  {
  }

  lemma CompressedIds(frames: seq<Frame>, resolved: seq<Resolved>, methodIds: map<string, nat>)
    requires Compresses(frames, resolved, methodIds)
    ensures forall i :: 0 <= i < |frames| ==> IsMethodId(methodIds, frames[i].methodId)
  {
    forall i | 0 <= i < |frames| ensures IsMethodId(methodIds, frames[i].methodId) {
      assert methodIds[resolved[i].functionName] == frames[i].methodId;
    }
  }

  lemma CompressesExtends(frames: seq<Frame>, resolved: seq<Resolved>, a: map<string, nat>, b: map<string, nat>)
    requires Compresses(frames, resolved, a) && Extends(a, b)
    ensures Compresses(frames, resolved, b)
  {
  }

  lemma CompressesMore(frames: seq<Frame>, resolved: seq<Resolved>, locations: seq<Location>, more: seq<Resolved>,
                       methodIds: map<string, nat>)
    requires Compresses(frames, resolved, methodIds) && Matches(locations, more, methodIds)
    ensures Compresses(frames + Compressed(locations), resolved + more, methodIds)
  {
  }

  lemma FileIdKnown(emitted: seq<Message>, start: nat, nextId: nat, methodIds: map<string, nat>,
                    fileIds: map<string, nat>, name: string)
    requires Sound(emitted, start, nextId, methodIds, fileIds) && name in fileIds
    ensures fileIds[name] > 0 && FileKnown(emitted[start..], fileIds[name])
  {
    var session := emitted[start..];
    var j :| 0 <= j < |session| && session[j] == FileAnnounced(fileIds[name], name);
    assert emitted[start + j] == session[j];
  }
}
