/** The profile tree of the Prometheus exporter: nodes that are grown and counted in place, printed by a
    pruned walk and reset after each scrape. Its specification is the multiset of the samples recorded since
    the last scrape. */
module ProfileTrie {
  import opened Frames

  type Pc = nat
  type Path = seq<Pc>

  datatype Clock = CPU | WALLCLOCK
  datatype Sample = Sample(path: Path, clock: Clock)
  datatype Line = Line(signature: string, clock: Clock, count: nat)

  const ROOT_NAME := "(root)"

  /** The path of a sample: its program counters from the outermost frame inwards, without the frames of
      the signal handler. */
  function SamplePath(frames: seq<Pc>, numFrames: nat): Path
    requires numFrames <= |frames|
  {
    if numFrames <= NUMBER_OF_SIGNAL_HANDLER_FRAMES then []
    else seq(numFrames - NUMBER_OF_SIGNAL_HANDLER_FRAMES,
             i requires 0 <= i < numFrames - NUMBER_OF_SIGNAL_HANDLER_FRAMES => frames[numFrames - 1 - i])
  }

  lemma PathLength(frames: seq<Pc>, numFrames: nat)
    requires numFrames <= |frames|
    ensures |SamplePath(frames, numFrames)| == if numFrames <= NUMBER_OF_SIGNAL_HANDLER_FRAMES then 0
                                               else numFrames - NUMBER_OF_SIGNAL_HANDLER_FRAMES
  {
  }

  lemma SamplePathStep(frames: seq<Pc>, numFrames: nat, frameIndex: nat)
    requires NUMBER_OF_SIGNAL_HANDLER_FRAMES <= frameIndex < numFrames <= |frames|
    ensures var path := SamplePath(frames, numFrames);
            && |path| == numFrames - NUMBER_OF_SIGNAL_HANDLER_FRAMES
            && path[..numFrames - frameIndex] == path[..numFrames - 1 - frameIndex] + [frames[frameIndex]]
  {
  }

  /** Some sample ends at the path or below it. */
  ghost predicate Covered(samples: multiset<Sample>, path: Path) {
    exists s :: s in samples && path <= s.path
  }

  lemma CoveredByOneMore(samples: multiset<Sample>, s: Sample, path: Path)
    ensures Covered(samples + multiset{s}, path) <==> Covered(samples, path) || path <= s.path
  {
    if path <= s.path {
      assert s in samples + multiset{s};
    }
    if Covered(samples, path) {
      var t :| t in samples && path <= t.path;
      assert t in samples + multiset{s};
    }
  }

  predicate Distinct(order: seq<Path>) {
    forall i, j :: 0 <= i < j < |order| ==> order[i] != order[j]
  }

  /** The names of the functions at a program counter, innermost inlined call last. */
  type Locate = Pc -> seq<string>

  /** What a node adds to the text of its path: the root's name, or each function's name behind a hash. */
  function Functions(locate: Locate, path: Path): seq<string> {
    if path == [] then [ROOT_NAME] else Hashed(locate(path[|path| - 1]))
  }

  function Hashed(names: seq<string>): seq<string> {
    seq(|names|, i requires 0 <= i < |names| => "#" + names[i])
  }

  function Joined(names: seq<string>): string {
    if names == [] then "" else Joined(names[..|names| - 1]) + names[|names| - 1]
  }

  function Text(locate: Locate, path: Path): string {
    Prefix(locate, path) + Joined(Functions(locate, path))
  }

  function Prefix(locate: Locate, path: Path): string
    decreases |path|, 0
  {
    if path == [] then ""
    else Prefix(locate, path[..|path| - 1]) + Joined(Functions(locate, path[..|path| - 1]))
  }

  /** The lines of one node: one for the root, and one for each function inlined at the program counter,
      all with the node's count. */
  function NodeLines(locate: Locate, path: Path, clock: Clock, count: nat): seq<Line> {
    FunctionLines(Prefix(locate, path), Functions(locate, path), clock, count)
  }

  function FunctionLines(prefix: string, functions: seq<string>, clock: Clock, count: nat): (lines: seq<Line>)
    ensures |lines| == |functions|
  {
    if functions == [] then []
    else FunctionLines(prefix, functions[..|functions| - 1], clock, count)
         + [Line(prefix + Joined(functions), clock, count)]
  }

  /** The lines of some nodes in the given order, each with the number of samples that end exactly there. */
  function Printed(locate: Locate, order: seq<Path>, samples: multiset<Sample>, clock: Clock): seq<Line> {
    if order == [] then []
    else Printed(locate, order[..|order| - 1], samples, clock)
         + NodeLines(locate, order[|order| - 1], clock, samples[Sample(order[|order| - 1], clock)])
  }

  lemma {:induction false} PrintedConcat(locate: Locate, a: seq<Path>, b: seq<Path>, samples: multiset<Sample>,
                                         clock: Clock)
    ensures Printed(locate, a + b, samples, clock)
         == Printed(locate, a, samples, clock) + Printed(locate, b, samples, clock)
  {
    hide NodeLines;
    if b == [] {
      assert a + b == a;
    } else {
      var rest, last := b[..|b| - 1], b[|b| - 1];
      PrintedConcat(locate, a, rest, samples, clock);
      assert (a + b)[..|a + b| - 1] == a + rest && (a + b)[|a + b| - 1] == last;
      PrintedLast(locate, a + b, samples, clock);
      PrintedLast(locate, b, samples, clock);
    }
  }

  lemma PrintedLast(locate: Locate, order: seq<Path>, samples: multiset<Sample>, clock: Clock)
    requires order != []
    ensures Printed(locate, order, samples, clock)
         == Printed(locate, order[..|order| - 1], samples, clock)
            + NodeLines(locate, order[|order| - 1], clock, samples[Sample(order[|order| - 1], clock)])
  {
  }

  /** What is printed: the root, and every path at or above a sample. */
  ghost predicate Printable(samples: multiset<Sample>, path: Path) {
    path == [] || Covered(samples, path)
  }

  ghost predicate Reports(order: seq<Path>, samples: multiset<Sample>) {
    Distinct(order) && forall p :: p in order <==> Printable(samples, p)
  }

  /** What is written for one clock when a scrape finds these samples. */
  ghost predicate IsReport(locate: Locate, lines: seq<Line>, samples: multiset<Sample>, clock: Clock) {
    exists order :: Reports(order, samples) && lines == Printed(locate, order, samples, clock)
  }

  /** First the lines of one clock, then those of the other. */
  ghost predicate IsScrape(locate: Locate, lines: seq<Line>, samples: multiset<Sample>) {
    exists k :: 0 <= k <= |lines| && IsReport(locate, lines[..k], samples, CPU)
                && IsReport(locate, lines[k..], samples, WALLCLOCK)
  }

  lemma PrintedAt(locate: Locate, order: seq<Path>, samples: multiset<Sample>, clock: Clock, k: nat)
    requires k < |order|
    ensures BlockAt(Printed(locate, order, samples, clock), |Printed(locate, order[..k], samples, clock)|,
                    NodeLines(locate, order[k], clock, samples[Sample(order[k], clock)]))
  {
    hide NodeLines;
    var one: seq<Path> := [order[k]];
    PrintedConcat(locate, order[..k], order[k..], samples, clock);
    assert order[..k] + order[k..] == order;
    PrintedConcat(locate, one, order[k + 1..], samples, clock);
    assert one + order[k + 1..] == order[k..];
    PrintedLast(locate, one, samples, clock);
    assert one[..0] == [];
  }

  predicate BlockAt(lines: seq<Line>, i: int, block: seq<Line>) {
    0 <= i <= |lines| - |block| && lines[i..i + |block|] == block
  }

  lemma FunctionLinesAre(prefix: string, functions: seq<string>, clock: Clock, count: nat)
    ensures functions != [] ==>
              var lines := FunctionLines(prefix, functions, clock, count);
              lines[|lines| - 1] == Line(prefix + Joined(functions), clock, count)
  {
  }

  // ---- what a printed signature says ----

  /** The names of all functions on a path, outermost first. */
  function Names(locate: Locate, path: Path): seq<string> {
    if path == [] then [] else Names(locate, path[..|path| - 1]) + locate(path[|path| - 1])
  }

  /** A hash and a name for each of them. */
  function Hashes(names: seq<string>): string {
    if names == [] then "" else Hashes(names[..|names| - 1]) + ("#" + names[|names| - 1])
  }

  lemma NoHashes()
    ensures Hashes([]) == ""
  {
  }

  lemma HashesOneMore(names: seq<string>, name: string)
    ensures Hashes(names + [name]) == Hashes(names) + ("#" + name)
  {
    assert (names + [name])[..|names|] == names;
  }

  lemma {:induction false} HashesTogether(a: seq<string>, b: seq<string>)
    ensures Hashes(a + b) == Hashes(a) + Hashes(b)
  {
    hide Hashes;
    NoHashes();
    if b == [] {
      assert a + b == a && Hashes(a) + "" == Hashes(a);
    } else {
      var init, last := b[..|b| - 1], b[|b| - 1];
      HashesTogether(a, init);
      assert (a + init) + [last] == a + b && init + [last] == b;
      HashesOneMore(a + init, last);
      HashesOneMore(init, last);
      TextConcat(Hashes(a), Hashes(init), "#" + last);
    }
  }

  lemma {:induction false} JoinedIsHashes(names: seq<string>)
    ensures Joined(Hashed(names)) == Hashes(names)
  {
    if names != [] {
      JoinedIsHashes(names[..|names| - 1]);
      assert Hashed(names)[..|names| - 1] == Hashed(names[..|names| - 1]);
    }
  }

  lemma TextOfRoot(locate: Locate)
    ensures Text(locate, []) == ROOT_NAME && Names(locate, []) == [] && Hashes([]) == ""
  {
    JoinedOne(ROOT_NAME);
    var root: Path := [];
    assert Functions(locate, root) == [ROOT_NAME] && Prefix(locate, root) == "";
    assert "" + ROOT_NAME == ROOT_NAME;
  }

  lemma JoinedOne(name: string)
    ensures Joined([name]) == name
  {
    assert [name][..0] == [] && "" + name == name;
  }

  lemma TextOneMore(locate: Locate, path: Path)
    requires path != []
    ensures Prefix(locate, path) == Text(locate, path[..|path| - 1])
    ensures Text(locate, path) == Prefix(locate, path) + Joined(Hashed(locate(path[|path| - 1])))
    ensures Names(locate, path) == Names(locate, path[..|path| - 1]) + locate(path[|path| - 1])
  {
  }

  lemma TextConcat(a: string, b: string, c: string)
    ensures (a + b) + c == a + (b + c)
  {
  }

  /** The text of a path names every call on it, from the root inwards. */
  lemma {:induction false} TextNamesCalls(locate: Locate, path: Path)
    ensures Text(locate, path) == ROOT_NAME + Hashes(Names(locate, path))
    ensures path != [] ==> Prefix(locate, path) == ROOT_NAME + Hashes(Names(locate, path[..|path| - 1]))
  {
    hide Text, Prefix, Names, Hashes, Hashed, Joined;
    if path == [] {
      TextOfRoot(locate);
      assert ROOT_NAME + "" == ROOT_NAME;
    } else {
      var above, names := path[..|path| - 1], locate(path[|path| - 1]);
      TextNamesCalls(locate, above);
      TextOneMore(locate, path);
      JoinedIsHashes(names);
      HashesTogether(Names(locate, above), names);
      TextConcat(ROOT_NAME, Hashes(Names(locate, above)), Hashes(names));
    }
  }

  lemma {:induction false} FunctionLineAt(prefix: string, functions: seq<string>, clock: Clock, count: nat, k: nat)
    requires k < |functions|
    ensures FunctionLines(prefix, functions, clock, count)[k] == Line(prefix + Joined(functions[..k + 1]), clock, count)
    decreases |functions|
  {
    hide Joined;
    var n := |functions| - 1;
    if k < n {
      FunctionLineAt(prefix, functions[..n], clock, count, k);
      assert functions[..n][..k + 1] == functions[..k + 1];
    } else {
      assert functions[..k + 1] == functions;
    }
  }

  /** The lines of a node, one by one: the calls down to the node, and then its functions, one more with each
      line. */
  lemma NodeLineNamesCalls(locate: Locate, path: Path, clock: Clock, count: nat, k: nat)
    requires path != [] && k < |locate(path[|path| - 1])|
    ensures |NodeLines(locate, path, clock, count)| == |locate(path[|path| - 1])|
    ensures NodeLines(locate, path, clock, count)[k] ==
      Line(ROOT_NAME + Hashes(Names(locate, path[..|path| - 1]) + locate(path[|path| - 1])[..k + 1]), clock, count)
  {
    hide FunctionLines, Hashes, Names, Joined, Prefix;
    var above, names := path[..|path| - 1], locate(path[|path| - 1]);
    TextNamesCalls(locate, path);
    FunctionLineAt(Prefix(locate, path), Hashed(names), clock, count, k);
    assert Hashed(names)[..k + 1] == Hashed(names[..k + 1]);
    JoinedIsHashes(names[..k + 1]);
    HashesTogether(Names(locate, above), names[..k + 1]);
    TextConcat(ROOT_NAME, Hashes(Names(locate, above)), Hashes(names[..k + 1]));
  }

  /** A sample whose innermost program counter has a function has a line with the number of such samples that
      names the root and every function on the sample's path, outermost first. */
  lemma SampleIsReported(locate: Locate, lines: seq<Line>, samples: multiset<Sample>, s: Sample)
    requires IsReport(locate, lines, samples, s.clock) && s in samples
    ensures exists i :: BlockAt(lines, i, NodeLines(locate, s.path, s.clock, samples[s]))
    ensures Functions(locate, s.path) != [] ==>
              Line(ROOT_NAME + Hashes(Names(locate, s.path)), s.clock, samples[s]) in lines
  {
    hide Printed, Functions, FunctionLines, Prefix, Joined, Hashes, Names;
    TextNamesCalls(locate, s.path);
    var order :| Reports(order, samples) && lines == Printed(locate, order, samples, s.clock);
    assert Printable(samples, s.path);
    var k :| 0 <= k < |order| && order[k] == s.path;
    PrintedAt(locate, order, samples, s.clock, k);
    var i, block := |Printed(locate, order[..k], samples, s.clock)|, NodeLines(locate, s.path, s.clock, samples[s]);
    assert BlockAt(lines, i, block);
    if Functions(locate, s.path) != [] {
      FunctionLinesAre(Prefix(locate, s.path), Functions(locate, s.path), s.clock, samples[s]);
      assert block[|block| - 1] == lines[i..i + |block|][|block| - 1];
    }
  }

  lemma {:induction false} PrintedOfOthers(locate: Locate, order: seq<Path>, samples: multiset<Sample>, s: Sample,
                                           n: nat, clock: Clock)
    requires s.path !in order
    ensures Printed(locate, order, samples[s := n], clock) == Printed(locate, order, samples, clock)
  {
    hide NodeLines;
    if order == [] {
    } else {
      assert s.path != order[|order| - 1];
      PrintedOfOthers(locate, order[..|order| - 1], samples, s, n, clock);
    }
  }

  /** How often a path was sampled shows in the lines if and only if its innermost program counter has a
      function: without one, the path has no line of its own. */
  lemma CountShowsIffNamed(locate: Locate, order: seq<Path>, samples: multiset<Sample>, s: Sample, n: nat)
    requires Reports(order, samples) && s in samples && n != samples[s]
    ensures Printed(locate, order, samples[s := n], s.clock) != Printed(locate, order, samples, s.clock)
       <==> Functions(locate, s.path) != []
  {
    hide Printed, Functions, NodeLines;
    assert Printable(samples, s.path);
    var k :| 0 <= k < |order| && order[k] == s.path;
    var a, b, clock := order[..k], order[k + 1..], s.clock;
    var one: seq<Path> := [s.path];
    var more := samples[s := n];
    assert order == a + one + b;
    PrintedOfOthers(locate, a, samples, s, n, clock);
    PrintedOfOthers(locate, b, samples, s, n, clock);
    PrintedConcat(locate, a + one, b, samples, clock);
    PrintedConcat(locate, a, one, samples, clock);
    PrintedConcat(locate, a + one, b, more, clock);
    PrintedConcat(locate, a, one, more, clock);
    PrintedOne(locate, s.path, samples, clock);
    PrintedOne(locate, s.path, more, clock);
    assert Sample(s.path, clock) == s;
    NodeLinesShowCount(locate, s.path, clock, n, samples[s]);
    var was, now, at := NodeLines(locate, s.path, clock, samples[s]), NodeLines(locate, s.path, clock, n),
                        |Printed(locate, a, samples, clock)|;
    assert Printed(locate, order, samples, clock)[at..at + |was|] == was;
    assert Printed(locate, order, more, clock)[at..at + |now|] == now;
  }

  lemma PrintedOne(locate: Locate, path: Path, samples: multiset<Sample>, clock: Clock)
    ensures Printed(locate, [path], samples, clock) == NodeLines(locate, path, clock, samples[Sample(path, clock)])
  {
    hide NodeLines;
    var one: seq<Path> := [path];
    PrintedLast(locate, one, samples, clock);
    assert one[..0] == [];
  }

  lemma NodeLinesShowCount(locate: Locate, path: Path, clock: Clock, m: nat, n: nat)
    requires m != n
    ensures |NodeLines(locate, path, clock, m)| == |NodeLines(locate, path, clock, n)|
    ensures NodeLines(locate, path, clock, m) != NodeLines(locate, path, clock, n) <==> Functions(locate, path) != []
  {
    hide Functions, Prefix;
    FunctionLinesAre(Prefix(locate, path), Functions(locate, path), clock, m);
    FunctionLinesAre(Prefix(locate, path), Functions(locate, path), clock, n);
  }

  lemma CoveredAbove(samples: multiset<Sample>, path: Path, above: Path)
    requires Covered(samples, path) && above <= path
    ensures Covered(samples, above)
  {
    var s :| s in samples && path <= s.path;
    assert above <= s.path;
  }

  // ---- what the printed counts add up to ----

  function LineSum(lines: seq<Line>): nat {
    if lines == [] then 0 else LineSum(lines[..|lines| - 1]) + lines[|lines| - 1].count
  }

  lemma {:induction false} LineSumConcat(a: seq<Line>, b: seq<Line>)
    ensures LineSum(a + b) == LineSum(a) + LineSum(b)
  {
    if b == [] {
      assert a + b == a;
    } else {
      LineSumConcat(a, b[..|b| - 1]);
      assert (a + b)[..|a + b| - 1] == a + b[..|b| - 1];
    }
  }

  lemma {:induction false} FunctionLineSum(prefix: string, functions: seq<string>, clock: Clock, count: nat)
    ensures LineSum(FunctionLines(prefix, functions, clock, count)) == |functions| * count
  {
    hide LineSum, Joined;
    if functions == [] {
      LineSumOfFew();
    } else {
      var n := |functions| - 1;
      var last := Line(prefix + Joined(functions), clock, count);
      FunctionLineSum(prefix, functions[..n], clock, count);
      LineSumConcat(FunctionLines(prefix, functions[..n], clock, count), [last]);
      LineSumOfFew();
      OneMoreTime(n, count);
    }
  }

  lemma LineSumOfFew()
    ensures LineSum([]) == 0 && forall line :: LineSum([line]) == line.count
  {
    forall line ensures LineSum([line]) == line.count {
      assert [line][..0] == [];
    }
  }

  lemma OneMoreTime(n: nat, count: nat)
    ensures (n + 1) * count == n * count + count
  {
  }

  /** The sum of a weight over all samples. */
  ghost function SumOf(weight: Sample -> nat, samples: multiset<Sample>): nat
    decreases |samples|
  {
    if samples == multiset{} then 0
    else
      var s :| s in samples;
      weight(s) + SumOf(weight, samples - multiset{s})
  }

  /** The sum starts with one of the samples. */
  lemma SumPicks(weight: Sample -> nat, samples: multiset<Sample>) returns (t: Sample)
    requires samples != multiset{}
    ensures t in samples && SumOf(weight, samples) == weight(t) + SumOf(weight, samples - multiset{t})
  {
    t :| t in samples && SumOf(weight, samples) == weight(t) + SumOf(weight, samples - multiset{t});
  }

  lemma {:induction false} SumWithout(weight: Sample -> nat, samples: multiset<Sample>, s: Sample)
    requires s in samples
    ensures SumOf(weight, samples) == weight(s) + SumOf(weight, samples - multiset{s})
    decreases |samples|
  {
    hide SumOf;
    var t := SumPicks(weight, samples);
    if s != t {
      SumWithout(weight, samples - multiset{t}, s);
      SumWithout(weight, samples - multiset{s}, t);
      assert samples - multiset{t} - multiset{s} == samples - multiset{s} - multiset{t};
    }
  }

  lemma {:induction false} SumWithoutAll(weight: Sample -> nat, samples: multiset<Sample>, s: Sample)
    ensures SumOf(weight, samples) == samples[s] * weight(s) + SumOf(weight, samples[s := 0])
    decreases samples[s]
  {
    hide SumOf;
    if s !in samples {
      assert samples[s := 0] == samples;
    } else {
      SumWithout(weight, samples, s);
      SumWithoutAll(weight, samples - multiset{s}, s);
      OneLess(samples, s);
      OneMoreTime(samples[s] - 1, weight(s));
    }
  }

  lemma OneLess(samples: multiset<Sample>, s: Sample)
    requires s in samples
    ensures (samples - multiset{s})[s] == samples[s] - 1
    ensures (samples - multiset{s})[s := 0] == samples[s := 0]
  {
  }

  lemma {:induction false} SumOfSame(weight: Sample -> nat, samples: multiset<Sample>, n: nat)
    requires forall s :: s in samples ==> weight(s) == n
    ensures SumOf(weight, samples) == n * |samples|
    decreases |samples|
  {
    if samples == multiset{} {
    } else {
      var s :| s in samples;
      SumWithout(weight, samples, s);
      SumOfSame(weight, samples - multiset{s}, n);
      assert n * |samples| == n * (|samples| - 1) + n;
    }
  }

  lemma {:induction false} SumOfBoth(weight: Sample -> nat, other: Sample -> nat, both: Sample -> nat,
                                     samples: multiset<Sample>)
    requires forall s :: both(s) == weight(s) + other(s)
    ensures SumOf(both, samples) == SumOf(weight, samples) + SumOf(other, samples)
    decreases |samples|
  {
    if samples == multiset{} {
    } else {
      var s :| s in samples;
      SumWithout(weight, samples, s);
      SumWithout(other, samples, s);
      SumWithout(both, samples, s);
      SumOfBoth(weight, other, both, samples - multiset{s});
    }
  }

  /** The number of lines that a sample adds one to. */
  function LinesPerSample(locate: Locate): Sample -> nat {
    (s: Sample) => |Functions(locate, s.path)|
  }

  function LinesPerClock(locate: Locate, clock: Clock): Sample -> nat {
    (s: Sample) => if s.clock == clock then |Functions(locate, s.path)| else 0
  }

  lemma {:induction false} PrintedSum(locate: Locate, order: seq<Path>, samples: multiset<Sample>, clock: Clock)
    requires Distinct(order) && forall s :: s in samples && s.clock == clock ==> s.path in order
    ensures LineSum(Printed(locate, order, samples, clock)) == SumOf(LinesPerClock(locate, clock), samples)
  {
    hide Functions, Printed, FunctionLines, LineSum, SumOf, Prefix, Distinct;
    var weight := LinesPerClock(locate, clock);
    if order == [] {
      SumOfSame(weight, samples, 0);
      NothingPrinted(locate, samples, clock);
      LineSumOfFew();
    } else {
      var rest, path := order[..|order| - 1], order[|order| - 1];
      var s := Sample(path, clock);
      var others := samples[s := 0];
      OthersAreInRest(order, samples, clock);
      PrintedSum(locate, rest, others, clock);
      PrintedOfOthers(locate, rest, samples, s, 0, clock);
      SumWithoutAll(weight, samples, s);
      PrintedLast(locate, order, samples, clock);
      LineSumConcat(Printed(locate, rest, samples, clock), NodeLines(locate, path, clock, samples[s]));
      FunctionLineSum(Prefix(locate, path), Functions(locate, path), clock, samples[s]);
      Commute(samples[s], |Functions(locate, path)|);
    }
  }

  lemma NothingPrinted(locate: Locate, samples: multiset<Sample>, clock: Clock)
    ensures Printed(locate, [], samples, clock) == []
  {
  }

  lemma Commute(m: nat, n: nat)
    ensures m * n == n * m
  {
  }

  lemma OthersAreInRest(order: seq<Path>, samples: multiset<Sample>, clock: Clock)
    requires order != [] && Distinct(order) && forall s :: s in samples && s.clock == clock ==> s.path in order
    ensures var rest, last := order[..|order| - 1], Sample(order[|order| - 1], clock);
            && Distinct(rest) && last.path !in rest
            && forall s :: s in samples[last := 0] && s.clock == clock ==> s.path in rest
  {
    var rest, last := order[..|order| - 1], Sample(order[|order| - 1], clock);
    forall s | s in samples[last := 0] && s.clock == clock ensures s.path in rest {
      assert s != last && s in samples;
      var k :| 0 <= k < |order| && order[k] == s.path;
      assert rest[k] == s.path;
    }
  }

  /** The counts of one clock's lines add up to the number of functions of its samples. */
  lemma ReportSum(locate: Locate, lines: seq<Line>, samples: multiset<Sample>, clock: Clock)
    requires IsReport(locate, lines, samples, clock)
    ensures LineSum(lines) == SumOf(LinesPerClock(locate, clock), samples)
  {
    hide Printed, LineSum;
    var order :| Reports(order, samples) && lines == Printed(locate, order, samples, clock);
    forall s | s in samples ensures s.path in order {
      assert Printable(samples, s.path);
    }
    PrintedSum(locate, order, samples, clock);
  }

  /** The counts of all lines of a scrape add up to the number of functions at the innermost program counters
      of the samples: a sample counts once in every line of its node. */
  lemma ScrapeSum(locate: Locate, lines: seq<Line>, samples: multiset<Sample>)
    requires IsScrape(locate, lines, samples)
    ensures LineSum(lines) == SumOf(LinesPerSample(locate), samples)
  {
    hide IsReport, Functions;
    var k :| 0 <= k <= |lines| && IsReport(locate, lines[..k], samples, CPU)
             && IsReport(locate, lines[k..], samples, WALLCLOCK);
    assert lines == lines[..k] + lines[k..];
    LineSumConcat(lines[..k], lines[k..]);
    ReportSum(locate, lines[..k], samples, CPU);
    ReportSum(locate, lines[k..], samples, WALLCLOCK);
    SumOfBoth(LinesPerClock(locate, CPU), LinesPerClock(locate, WALLCLOCK), LinesPerSample(locate), samples);
  }

  /** The counts add up to the number of samples if every sample ends at a program counter with one function. */
  lemma CountsAddUp(locate: Locate, lines: seq<Line>, samples: multiset<Sample>)
    requires IsScrape(locate, lines, samples)
    requires forall s :: s in samples ==> |Functions(locate, s.path)| == 1
    ensures LineSum(lines) == |samples|
  {
    ScrapeSum(locate, lines, samples);
    SumOfSame(LinesPerSample(locate), samples, 1);
  }

  /** The scrape of a single sample. */
  lemma ScrapeOfOne(locate: Locate, pc: Pc) returns (lines: seq<Line>)
    ensures IsScrape(locate, lines, multiset{Sample([pc], CPU)})
    ensures LineSum(lines) == |locate(pc)|
  {
    hide Printed, LineSum;
    var s := Sample([pc], CPU);
    var order: seq<Path> := [[], [pc]];
    assert order[1] == s.path;
    forall p ensures p in order <==> Printable(multiset{s}, p) {
      assert s in multiset{s};
      assert p <= [pc] <==> p == [] || p == [pc];
    }
    var cpu, wallclock := Printed(locate, order, multiset{s}, CPU), Printed(locate, order, multiset{s}, WALLCLOCK);
    lines := cpu + wallclock;
    assert lines[..|cpu|] == cpu && lines[|cpu|..] == wallclock;
    assert IsReport(locate, cpu, multiset{s}, CPU) && IsReport(locate, wallclock, multiset{s}, WALLCLOCK);
    ScrapeSum(locate, lines, multiset{s});
    SumOfSame(LinesPerSample(locate), multiset{s}, |locate(pc)|);
  }

  /** Whatever was sampled, the counts add up to the number of samples, if and only if every program counter
      has exactly one function. */
  lemma CountsAddUpIffOneFunctionEach(locate: Locate)
    ensures (forall lines, samples :: IsScrape(locate, lines, samples) ==> LineSum(lines) == |samples|)
       <==> (forall pc :: |locate(pc)| == 1)
  {
    hide IsScrape, LineSum;
    if forall pc :: |locate(pc)| == 1 {
      forall lines, samples | IsScrape(locate, lines, samples) ensures LineSum(lines) == |samples| {
        CountsAddUp(locate, lines, samples);
      }
    }
    forall pc ensures (forall lines, samples :: IsScrape(locate, lines, samples) ==> LineSum(lines) == |samples|)
                      ==> |locate(pc)| == 1
    {
      var lines := ScrapeOfOne(locate, pc);
      assert |multiset{Sample([pc], CPU)}| == 1;
    }
  }

  /** One sample at a program counter where a call of g is inlined into f: both lines carry its count. */
  lemma InlinedSampleCountsTwice() returns (lines: seq<Line>)
    ensures IsScrape((pc: Pc) => ["f", "g"], lines, multiset{Sample([7], CPU)}) && LineSum(lines) == 2
  {
    lines := ScrapeOfOne((pc: Pc) => ["f", "g"], 7);
  }

  /** One sample at a program counter that nothing is known about: no line carries it. */
  lemma UnknownSampleIsNotCounted() returns (lines: seq<Line>)
    ensures IsScrape((pc: Pc) => [], lines, multiset{Sample([7], CPU)}) && LineSum(lines) == 0
  {
    lines := ScrapeOfOne((pc: Pc) => [], 7);
  }

  /** The path goes on from another by a step into the given program counters. */
  predicate StepsInto(path: Path, p: Path, pcs: set<Pc>) {
    |path| < |p| && path <= p && p[|path|] in pcs
  }

  lemma StepIsPrefix(path: Path, pc: Pc, p: Path)
    ensures path + [pc] <= p <==> StepsInto(path, p, {pc})
    ensures StepsInto(path, p, {pc}) ==> path <= p
  {
    if |path| < |p| && path + [pc] <= p {
      assert path == (path + [pc])[..|path|] == p[..|path|];
      assert (path + [pc])[|path|] == p[|path|];
    }
    if StepsInto(path, p, {pc}) {
      assert p[..|path| + 1] == p[..|path|] + [p[|path|]];
    }
  }

  /** What is printed below a path through the given steps, each once. */
  ghost predicate PrintsBelow(order: seq<Path>, samples: multiset<Sample>, path: Path, pcs: set<Pc>) {
    Distinct(order) && forall p :: p in order <==> Printable(samples, p) && StepsInto(path, p, pcs)
  }

  lemma PrintsOneMore(order: seq<Path>, below: seq<Path>, samples: multiset<Sample>, path: Path, pcs: set<Pc>, pc: Pc)
    requires PrintsBelow(order, samples, path, pcs) && PrintsBelow(below, samples, path, {pc}) && pc !in pcs
    ensures PrintsBelow(order + below, samples, path, pcs + {pc})
  {
    hide Printable, Distinct;
    assert forall p :: StepsInto(path, p, pcs + {pc}) <==> StepsInto(path, p, pcs) || StepsInto(path, p, {pc});
    DistinctConcat(order, below);
  }

  lemma DistinctConcat(a: seq<Path>, b: seq<Path>)
    requires Distinct(a) && Distinct(b) && forall p :: p in a ==> p !in b
    ensures Distinct(a + b)
  {
    forall i, j | 0 <= i < j < |a + b| ensures (a + b)[i] != (a + b)[j] {
      if i < |a| <= j {
        assert a[i] in a && b[j - |a|] in b;
      }
    }
  }

  class ProfileNode {
    const locations: seq<string>
    var pcToNode: map<Pc, ProfileNode>
    var seenInPhase: bool
    var cpuCount: nat
    var wallclockCount: nat

    constructor (locations: seq<string>)
      ensures this.locations == locations
      ensures pcToNode == map[] && !seenInPhase && cpuCount == 0 && wallclockCount == 0
    {
      this.locations := locations;
      pcToNode := map[];
      seenInPhase, cpuCount, wallclockCount := false, 0, 0;
    }

    function Count(clock: Clock): nat
      reads this`cpuCount, this`wallclockCount
    {
      if clock == CPU then cpuCount else wallclockCount
    }

    method Increment(clock: Clock)
      modifies this`cpuCount, this`wallclockCount
      ensures forall c :: Count(c) == old(Count(c)) + if c == clock then 1 else 0
    {
      if clock == CPU {
        cpuCount := cpuCount + 1;
      } else {
        wallclockCount := wallclockCount + 1;
      }
    }

    ghost predicate IsReset()
      reads this`seenInPhase, this`cpuCount, this`wallclockCount
    {
      !seenInPhase && forall c :: Count(c) == 0
    }

    method Reset()
      modifies this`seenInPhase, this`cpuCount, this`wallclockCount
      ensures IsReset()
    {
      seenInPhase, cpuCount, wallclockCount := false, 0, 0;
    }
  }

  class Profile {
    const locate: Locate
    const root: ProfileNode
    ghost var nodes: set<ProfileNode>
    ghost var pathOf: map<ProfileNode, Path>
    ghost var samples: multiset<Sample>

    /** The nodes form a tree: each has one path from the root, and no two have the same. */
    ghost predicate Tree()
      reads this`nodes, this`pathOf, nodes`pcToNode
    {
      && root in nodes && pathOf.Keys == nodes && pathOf[root] == []
      && (forall m, n :: m in nodes && n in nodes && pathOf[m] == pathOf[n] ==> m == n)
      && (forall n, pc :: n in nodes && pc in n.pcToNode ==>
            n.pcToNode[pc] in nodes && pathOf[n.pcToNode[pc]] == pathOf[n] + [pc])
      && (forall n {:trigger HasParent(n)} :: n in nodes && n != root ==> HasParent(n))
    }

    ghost predicate HasParent(n: ProfileNode)
      reads this`nodes, this`pathOf, nodes`pcToNode
      requires n in pathOf
    {
      exists m :: m in nodes && IsChild(m, n)
    }

    ghost predicate IsChild(m: ProfileNode, n: ProfileNode)
      reads this`pathOf, m`pcToNode
      requires n in pathOf
    {
      && pathOf[n] != [] && pathOf[n][|pathOf[n]| - 1] in m.pcToNode
      && m.pcToNode[pathOf[n][|pathOf[n]| - 1]] == n
      && n.locations == locate(pathOf[n][|pathOf[n]| - 1])
    }

    /** Every count is the number of samples with exactly that path and clock since the last scrape. */
    ghost predicate Counts()
      reads this, nodes`cpuCount, nodes`wallclockCount
      requires pathOf.Keys == nodes
    {
      && (forall n, c {:trigger n.Count(c)} :: n in nodes ==> n.Count(c) == samples[Sample(pathOf[n], c)])
      && (forall s {:trigger HasNode(s.path)} :: s in samples ==> HasNode(s.path))
    }

    ghost predicate HasNode(path: Path)
      reads this`nodes, this`pathOf
      requires pathOf.Keys == nodes
    {
      exists n :: n in nodes && pathOf[n] == path
    }

    /** A node other than the root is marked exactly if a sample ends at it or below it, or the sample now
        being recorded has gone through it. */
    ghost predicate Marks(pending: Path)
      reads this, nodes`seenInPhase
      requires pathOf.Keys == nodes
    {
      forall n :: n in nodes && n != root ==>
        (n.seenInPhase <==> Covered(samples, pathOf[n]) || pathOf[n] <= pending)
    }

    ghost predicate Valid()
      reads this, nodes
    {
      Tree() && Counts() && Marks([])
    }

    ghost function Subtree(n: ProfileNode): set<ProfileNode>
      reads this`nodes, this`pathOf
      requires n in pathOf
    {
      set m | m in nodes && m in pathOf && pathOf[n] <= pathOf[m]
    }

    constructor (locate: Locate)
      ensures Valid() && fresh(nodes) && samples == multiset{} && this.locate == locate
      ensures !root.seenInPhase
    {
      this.locate := locate;
      root := new ProfileNode([]);
      new;
      nodes := {root};
      pathOf := map[root := []];
      samples := multiset{};
    }

    /** A node whose path extends another's by one step is that node's child. */
    lemma ChildIsLinked(n: ProfileNode, c: ProfileNode, pc: Pc)
      requires Tree() && n in nodes && c in nodes && pathOf[c] == pathOf[n] + [pc]
      ensures pc in n.pcToNode && n.pcToNode[pc] == c
      ensures c.locations == locate(pc)
    {
      assert c != root;
      assert HasParent(c);
      var m :| m in nodes && IsChild(m, c);
      assert pathOf[m] + [pc] == pathOf[n] + [pc];
      assert pathOf[m] == (pathOf[m] + [pc])[..|pathOf[m]|] == pathOf[n];
    }

    /** Every prefix of a node's path is a node's path. */
    lemma {:induction false} PrefixHasNode(n: ProfileNode, path: Path)
      requires Tree() && n in nodes && path <= pathOf[n]
      ensures HasNode(path)
      decreases |pathOf[n]|
    {
      if path == pathOf[n] {
      } else {
        assert HasParent(n);
        var m :| m in nodes && IsChild(m, n);
        assert pathOf[n] == pathOf[m] + [pathOf[n][|pathOf[n]| - 1]];
        assert path <= pathOf[m];
        PrefixHasNode(m, path);
      }
    }

    /** The step of a sample's path below a node leads to a marked child. */
    lemma CoveredHasChild(n: ProfileNode, pc: Pc)
      requires Valid() && n in nodes && Covered(samples, pathOf[n] + [pc])
      ensures pc in n.pcToNode && n.pcToNode[pc].seenInPhase
    {
      var s :| s in samples && pathOf[n] + [pc] <= s.path;
      assert HasNode(s.path);
      var m :| m in nodes && pathOf[m] == s.path;
      PrefixHasNode(m, pathOf[n] + [pc]);
      var c :| c in nodes && pathOf[c] == pathOf[n] + [pc];
      ChildIsLinked(n, c, pc);
    }

    /** A step that has no child yet leads to no node. */
    lemma StepHasNoNode(n: ProfileNode, pc: Pc)
      requires Tree() && n in nodes && pc !in n.pcToNode
      ensures !HasNode(pathOf[n] + [pc])
    {
      if HasNode(pathOf[n] + [pc]) {
        var c :| c in nodes && pathOf[c] == pathOf[n] + [pc];
        ChildIsLinked(n, c, pc);
        assert false;
      }
    }

    method RecordStackTrace(frames: seq<Pc>, numFrames: int, clock: Clock)
      requires Valid() && numFrames <= |frames|
      modifies this`nodes, this`pathOf, this`samples, nodes
      ensures Valid() && fresh(nodes - old(nodes)) && old(nodes) <= nodes
      ensures root.seenInPhase == old(root.seenInPhase)
      ensures samples == old(samples) + if numFrames < 0 then multiset{}
                                        else multiset{Sample(SamplePath(frames, numFrames), clock)}
    {
      hide Counts, Marks, SamplePath, HasParent, HasNode, IsChild, Covered;
      if numFrames < 0 {
        return;
      }
      ghost var path := SamplePath(frames, numFrames);
      PathLength(frames, numFrames);
      var node := root;
      var frameIndex := numFrames - 1;
      while frameIndex >= NUMBER_OF_SIGNAL_HANDLER_FRAMES
        invariant frameIndex < numFrames
        invariant path == [] || numFrames - 1 - frameIndex <= |path|
        invariant Tree() && Counts() && node in nodes && Marks(pathOf[node])
        invariant path == [] ==> pathOf[node] == []
        invariant path != [] ==> pathOf[node] == path[..numFrames - 1 - frameIndex]
        invariant samples == old(samples) && root.seenInPhase == old(root.seenInPhase)
        invariant fresh(nodes - old(nodes)) && old(nodes) <= nodes
      {
        SamplePathStep(frames, numFrames, frameIndex);
        node := Descend(node, frames[frameIndex]);
        frameIndex := frameIndex - 1;
      }
      assert path == [] || path[..numFrames - 1 - frameIndex] == path;
      CountAt(node, clock);
    }

    /** The sample being recorded ends at the node. */
    method CountAt(node: ProfileNode, clock: Clock)
      requires Tree() && Counts() && node in nodes && Marks(pathOf[node])
      modifies this`samples, node`cpuCount, node`wallclockCount
      ensures Valid() && samples == old(samples) + multiset{Sample(pathOf[node], clock)}
    {
      hide Counts, Marks, HasParent;
      ghost var path := pathOf[node];
      node.Increment(clock);
      samples := samples + multiset{Sample(path, clock)};
      CountsWithSample(node, clock);
      MarksWithSample(path, clock);
    }

    twostate lemma CountsWithSample(new node: ProfileNode, new clock: Clock)
      requires pathOf.Keys == nodes && nodes == old(nodes) && pathOf == old(pathOf) && node in nodes
      requires forall m, n :: m in nodes && n in nodes && pathOf[m] == pathOf[n] ==> m == n
      requires old(Counts()) && samples == old(samples) + multiset{Sample(pathOf[node], clock)}
      requires forall c :: node.Count(c) == old(node.Count(c)) + if c == clock then 1 else 0
      requires forall n, c :: n in nodes && n != node ==> n.Count(c) == old(n.Count(c))
      ensures Counts()
    {
      assert HasNode(pathOf[node]);
    }

    twostate lemma MarksWithSample(new path: Path, new clock: Clock)
      requires pathOf.Keys == nodes && nodes == old(nodes) && pathOf == old(pathOf)
      requires forall n :: n in nodes && n != root ==> pathOf[n] != [] && n.seenInPhase == old(n.seenInPhase)
      requires old(Marks(path)) && samples == old(samples) + multiset{Sample(path, clock)}
      ensures Marks([])
    {
      hide Covered;
      forall n | n in nodes
        ensures Covered(samples, pathOf[n]) <==> Covered(old(samples), pathOf[n]) || pathOf[n] <= path
      {
        CoveredByOneMore(old(samples), Sample(path, clock), pathOf[n]);
      }
    }

    /** One step down: the child for the program counter is found or made, and marked. */
    method Descend(node: ProfileNode, pc: Pc) returns (child: ProfileNode)
      requires Tree() && Counts() && node in nodes && Marks(pathOf[node])
      modifies this`nodes, this`pathOf, nodes
      ensures Tree() && Counts() && child in nodes && Marks(pathOf[child])
      ensures pathOf[child] == old(pathOf)[node] + [pc]
      ensures fresh(nodes - old(nodes)) && old(nodes) <= nodes && root.seenInPhase == old(root.seenInPhase)
    {
      hide Covered, HasParent, Counts;
      if pc in node.pcToNode {
        child := node.pcToNode[pc];
      } else {
        child := MakeChild(node, pc);
      }
      ghost var path := pathOf[node];
      child.seenInPhase := true;
      assert forall n :: n in nodes ==> (pathOf[n] <= path + [pc] <==> pathOf[n] <= path || n == child);
    }

    /** The tree grows by an unmarked leaf without a count. */
    method MakeChild(node: ProfileNode, pc: Pc) returns (child: ProfileNode)
      requires Tree() && Counts() && node in nodes && pc !in node.pcToNode
      modifies this`nodes, this`pathOf, node`pcToNode
      ensures Tree() && Counts() && fresh(child) && nodes == old(nodes) + {child}
      ensures pathOf == old(pathOf)[child := old(pathOf)[node] + [pc]]
      ensures !child.seenInPhase && child != root
    {
      hide Counts, HasParent, HasNode;
      StepHasNoNode(node, pc);
      child := new ProfileNode(locate(pc));
      ghost var path := pathOf[node] + [pc];
      node.pcToNode := node.pcToNode[pc := child];
      nodes := nodes + {child};
      pathOf := pathOf[child := path];
      TreeWithLeaf(node, child, pc);
      CountsWithLeaf(child, path);
    }

    twostate lemma TreeWithLeaf(new node: ProfileNode, new child: ProfileNode, pc: Pc)
      requires old(Tree())
      requires node in old(nodes) && child !in old(nodes) && pc !in old(node.pcToNode)
      requires !old(HasNode(pathOf[node] + [pc]))
      requires nodes == old(nodes) + {child} && pathOf == old(pathOf)[child := old(pathOf)[node] + [pc]]
      requires node.pcToNode == old(node.pcToNode)[pc := child]
      requires forall n :: n in old(nodes) && n != node ==> n.pcToNode == old(n.pcToNode)
      requires child.pcToNode == map[] && child.locations == locate(pc)
      ensures Tree()
    {
      assert IsChild(node, child);
      forall n | n in old(nodes) && n != root ensures HasParent(n) {
        assert old(HasParent(n));
        var m :| m in old(nodes) && old(IsChild(m, n));
        assert IsChild(m, n);
      }
    }

    twostate lemma CountsWithLeaf(new child: ProfileNode, path: Path)
      requires old(pathOf.Keys) == old(nodes) && child !in old(nodes)
      requires nodes == old(nodes) + {child} && pathOf == old(pathOf)[child := path] && samples == old(samples)
      requires old(Counts()) && !old(HasNode(path))
      requires forall n, c :: n in old(nodes) ==> n.Count(c) == old(n.Count(c))
      requires forall c :: child.Count(c) == 0
      ensures Counts()
    {
      forall s | s in samples ensures HasNode(s.path) {
        assert old(HasNode(s.path));
        var n :| n in old(nodes) && old(pathOf)[n] == s.path;
        assert n in nodes && pathOf[n] == s.path;
      }
      forall c ensures samples[Sample(path, c)] == 0 {
        assert Sample(path, c).path == path;
      }
    }

    lemma ChildSubtree(node: ProfileNode, pc: Pc)
      requires Tree() && node in nodes && pc in node.pcToNode
      ensures Subtree(node.pcToNode[pc]) < Subtree(node)
    {
      var child := node.pcToNode[pc];
      assert pathOf[child] == pathOf[node] + [pc];
      assert !(pathOf[child] <= pathOf[node]);
      assert pathOf[node] <= pathOf[node] && node in Subtree(node);
      forall m | m in Subtree(child) ensures m in Subtree(node) {
        StepIsPrefix(pathOf[node], pc, pathOf[m]);
      }
    }

    /** What is printed below a child is what is printed below its parent through that step. */
    lemma ChildPrints(node: ProfileNode, pc: Pc, p: Path)
      requires Valid() && node in nodes && pc in node.pcToNode
      ensures Printable(samples, p) && StepsInto(pathOf[node], p, {pc})
         <==> (var c := node.pcToNode[pc]; c.seenInPhase && pathOf[c] <= p && Printable(samples, p))
    {
      var c := node.pcToNode[pc];
      if Covered(samples, p) && pathOf[c] <= p {
        CoveredAbove(samples, p, pathOf[c]);
      }
      StepIsPrefix(pathOf[node], pc, p);
    }

    lemma StepsIntoChild(node: ProfileNode, p: Path)
      requires Valid() && node in nodes && Printable(samples, p) && pathOf[node] <= p
      ensures p == pathOf[node] || StepsInto(pathOf[node], p, node.pcToNode.Keys)
    {
      if |p| > |pathOf[node]| {
        var pc := p[|pathOf[node]|];
        StepIsPrefix(pathOf[node], pc, p);
        CoveredAbove(samples, p, pathOf[node] + [pc]);
        CoveredHasChild(node, pc);
      }
    }

    /** A marked node is printed itself, and below it what leads to a sample. */
    lemma PrintsAll(node: ProfileNode, order: seq<Path>)
      requires Valid() && node in nodes && node.seenInPhase
      requires PrintsBelow(order, samples, pathOf[node], node.pcToNode.Keys)
      ensures Distinct([pathOf[node]] + order)
      ensures forall p :: p in [pathOf[node]] + order <==> pathOf[node] <= p && Printable(samples, p)
    {
      assert Printable(samples, pathOf[node]);
      DistinctConcat([pathOf[node]], order);
      forall p | Printable(samples, p) && pathOf[node] <= p ensures p in [pathOf[node]] + order {
        StepsIntoChild(node, p);
      }
    }

    /** The printed subtree of a node: nothing if it is not marked, otherwise the node itself and every path
        below it that leads to a sample. */
    method WriteProfileNode(node: ProfileNode, prefix: string, clock: Clock)
      returns (lines: seq<Line>, ghost order: seq<Path>)
      requires Valid() && node in nodes && prefix == Prefix(locate, pathOf[node])
      ensures lines == Printed(locate, order, samples, clock) && Distinct(order)
      ensures !node.seenInPhase ==> order == []
      ensures forall p :: p in order <==> node.seenInPhase && pathOf[node] <= p && Printable(samples, p)
      decreases Subtree(node), 2
    {
      if !node.seenInPhase {
        return [], [];
      }
      hide Counts, Marks, HasParent, Prefix, Printed, PrintsBelow, Printable, Distinct;
      var commonStr, more;
      lines, commonStr := WriteNode(node, prefix, clock);
      more, order := WriteChildren(node, pathOf[node], commonStr, clock);
      PrintedConcat(locate, [pathOf[node]], order, samples, clock);
      PrintsAll(node, order);
      lines, order := lines + more, [pathOf[node]] + order;
    }

    /** The children are printed in any order. */
    method WriteChildren(node: ProfileNode, ghost path: Path, commonStr: string, clock: Clock)
      returns (lines: seq<Line>, ghost order: seq<Path>)
      requires Valid() && node in nodes && node in pathOf && path == pathOf[node] && commonStr == Text(locate, path)
      ensures lines == Printed(locate, order, samples, clock)
      ensures PrintsBelow(order, samples, path, node.pcToNode.Keys)
      decreases Subtree(node), 1
    {
      lines, order := [], [];
      assert PrintsBelow(order, samples, path, {});
      assert Printed(locate, order, samples, clock) == [];
      hide Valid, Tree, Counts, Marks, Printed, PrintsBelow, Text, Subtree;
      var rest := node.pcToNode.Keys;
      ghost var done := {};
      while rest != {}
        invariant rest <= node.pcToNode.Keys && done + rest == node.pcToNode.Keys && done !! rest
        invariant lines == Printed(locate, order, samples, clock)
        invariant PrintsBelow(order, samples, path, done)
      {
        var pc :| pc in rest;
        var more;
        ghost var below;
        more, below := WriteChild(node, pc, path, commonStr, clock);
        PrintedConcat(locate, order, below, samples, clock);
        PrintsOneMore(order, below, samples, path, done, pc);
        lines, order, rest, done := lines + more, order + below, rest - {pc}, done + {pc};
      }
    }

    method WriteChild(node: ProfileNode, pc: Pc, ghost path: Path, commonStr: string, clock: Clock)
      returns (lines: seq<Line>, ghost order: seq<Path>)
      requires Valid() && node in nodes && node in pathOf && path == pathOf[node] && commonStr == Text(locate, path)
      requires pc in node.pcToNode
      ensures lines == Printed(locate, order, samples, clock)
      ensures PrintsBelow(order, samples, path, {pc})
      decreases Subtree(node), 0
    {
      hide Printable, Printed, Distinct;
      ChildSubtree(node, pc);
      assert (path + [pc])[..|path|] == path;
      lines, order := WriteProfileNode(node.pcToNode[pc], commonStr, clock);
      forall p ensures p in order <==> Printable(samples, p) && StepsInto(path, p, {pc}) {
        ChildPrints(node, pc, p);
      }
    }

    /** The lines of the node itself, and the text that its children's lines start with. */
    method WriteNode(node: ProfileNode, prefix: string, clock: Clock) returns (lines: seq<Line>, commonStr: string)
      requires Valid() && node in nodes && prefix == Prefix(locate, pathOf[node])
      ensures lines == Printed(locate, [pathOf[node]], samples, clock)
      ensures commonStr == Text(locate, pathOf[node])
    {
      var functions := Hashed(node.locations);
      if node == root {
        functions := [ROOT_NAME];
      }
      ghost var path := pathOf[node];
      assert functions == Functions(locate, path) by {
        if node != root {
          assert HasParent(node);
        }
      }
      hide Tree, Marks;
      lines, commonStr := WriteFunctions(prefix, functions, node.Count(clock), clock);
      PrintedLast(locate, [path], samples, clock);
      assert Printed(locate, [path][..0], samples, clock) == [];
    }

    method WriteFunctions(prefix: string, functions: seq<string>, count: nat, clock: Clock)
      returns (lines: seq<Line>, commonStr: string)
      ensures lines == FunctionLines(prefix, functions, clock, count)
      ensures commonStr == prefix + Joined(functions)
    {
      lines, commonStr := [], prefix;
      for i := 0 to |functions|
        invariant lines == FunctionLines(prefix, functions[..i], clock, count)
        invariant commonStr == prefix + Joined(functions[..i])
      {
        commonStr := commonStr + functions[i];
        lines := lines + [Line(commonStr, clock, count)];
        assert functions[..i + 1][..i] == functions[..i];
        assert commonStr == prefix + Joined(functions[..i + 1]);
      }
      assert functions[..|functions|] == functions;
    }

    /** The subtree of a node is reset, and nothing else is changed. */
    method EndPhaseNode(node: ProfileNode)
      requires Tree() && node in nodes
      modifies Subtree(node)`seenInPhase, Subtree(node)`cpuCount, Subtree(node)`wallclockCount
      ensures Tree() && forall m :: m in Subtree(node) ==> m.IsReset()
      decreases Subtree(node)
    {
      hide Tree, HasParent, ProfileNode.IsReset, Subtree;
      InSubtree(node);
      node.Reset();
      var rest := node.pcToNode.Keys;
      ghost var done := {};
      while rest != {}
        invariant rest <= node.pcToNode.Keys && done + rest == node.pcToNode.Keys && Tree()
        invariant node.IsReset()
        invariant forall m :: m in nodes && StepsInto(pathOf[node], pathOf[m], done) ==> m.IsReset()
      {
        var pc :| pc in rest;
        ChildSubtree(node, pc);
        InSubtree(node.pcToNode[pc]);
        EndPhaseNode(node.pcToNode[pc]);
        StepsSplit(node, done, pc);
        rest, done := rest - {pc}, done + {pc};
      }
      SubtreeSteps(node);
    }

    lemma InSubtree(node: ProfileNode)
      requires Tree() && node in nodes
      ensures pathOf.Keys == nodes && node in Subtree(node) && Subtree(node) <= nodes
      ensures forall pc :: pc in node.pcToNode ==> node.pcToNode[pc] in nodes
    {
    }

    lemma StepsSplit(node: ProfileNode, pcs: set<Pc>, pc: Pc)
      requires Tree() && node in nodes && pc in node.pcToNode
      ensures node !in Subtree(node.pcToNode[pc])
      ensures forall m :: m in nodes && StepsInto(pathOf[node], pathOf[m], pcs + {pc}) ==>
                StepsInto(pathOf[node], pathOf[m], pcs) || m in Subtree(node.pcToNode[pc])
    {
      assert pathOf[node.pcToNode[pc]] == pathOf[node] + [pc];
      assert !(pathOf[node] + [pc] <= pathOf[node]);
      forall m | m in nodes && StepsInto(pathOf[node], pathOf[m], {pc}) ensures m in Subtree(node.pcToNode[pc]) {
        StepIsPrefix(pathOf[node], pc, pathOf[m]);
      }
    }

    lemma SubtreeSteps(node: ProfileNode)
      requires Tree() && node in nodes
      ensures forall m :: m in Subtree(node) ==> m == node || StepsInto(pathOf[node], pathOf[m], node.pcToNode.Keys)
    {
      forall m | m in Subtree(node) && m != node
        ensures StepsInto(pathOf[node], pathOf[m], node.pcToNode.Keys)
      {
        var pc := pathOf[m][|pathOf[node]|];
        StepIsPrefix(pathOf[node], pc, pathOf[m]);
        PrefixHasNode(m, pathOf[node] + [pc]);
        var c :| c in nodes && pathOf[c] == pathOf[node] + [pc];
        ChildIsLinked(node, c, pc);
      }
    }

    /** A scrape prints both clocks' counts of exactly the samples recorded since the last one, and starts
        again from none. Before the first scrape the root is not marked, and that scrape prints nothing. */
    method Scrape() returns (lines: seq<Line>)
      requires Valid()
      modifies this`samples, nodes`seenInPhase, nodes`cpuCount, nodes`wallclockCount
      ensures Valid() && samples == multiset{} && root.seenInPhase
      ensures if old(root.seenInPhase) then IsScrape(locate, lines, old(samples)) else lines == []
    {
      hide Valid, IsReport;
      var cpuLines := WriteProfile(CPU);
      var wallclockLines := WriteProfile(WALLCLOCK);
      lines := cpuLines + wallclockLines;
      assert lines[..|cpuLines|] == cpuLines && lines[|cpuLines|..] == wallclockLines;
      EndPhase();
    }

    method WriteProfile(clock: Clock) returns (lines: seq<Line>)
      requires Valid()
      ensures if root.seenInPhase then IsReport(locate, lines, samples, clock) else lines == []
    {
      hide Covered, Counts, Marks, HasParent, Distinct;
      ghost var order;
      lines, order := WriteProfileNode(root, "", clock);
      assert root.seenInPhase ==> Reports(order, samples);
    }

    method EndPhase()
      requires Valid()
      modifies this`samples, nodes`seenInPhase, nodes`cpuCount, nodes`wallclockCount
      ensures Valid() && samples == multiset{} && root.seenInPhase
    {
      hide HasParent, HasNode;
      assert Subtree(root) == nodes;
      EndPhaseNode(root);
      forall m | m in nodes ensures m.IsReset() {
        assert m in Subtree(root);
      }
      root.seenInPhase := true;
      samples := multiset{};
      assert forall p :: !Covered(samples, p);
      assert Tree();
      assert Counts();
      assert Marks([]);
    }
  }
}
