/**
 * Every interleaving of the dispatcher and the workers answers as if all requests ran in
 * dispatch order on one plain map, each worker in FIFO order and up to its quit, and no root
 * check fails on a group without a misaligned APPEND.
 */
module WorkersProofs {
  import opened Collections
  import opened Bytes
  import opened Table
  import opened TableProofs
  import opened Requests
  import opened Workers
  import Partition

  // ---------------------------------------------------------------- global run and local runs

  ghost predicate AgreeFor(cfg: Config, n: nat, m: KeyMap, m': KeyMap, w: nat)
    requires ValidSetup(cfg, n)
  {
    forall k :: WorkerOf(cfg, n, BinOf(cfg, k)) == w ==> (k in m <==> k in m') && (k in m ==> m[k] == m'[k])
  }

  /** A request of w keeps two maps in agreement; any other request does not touch the keys of w. */
  lemma ApplyAgrees(cfg: Config, n: nat, r: Request, m: KeyMap, m': KeyMap, w: nat)
    requires ValidSetup(cfg, n) && AgreeFor(cfg, n, m, m', w)
    ensures WorkerOf(cfg, n, BinOf(cfg, r.key)) == w ==>
              AgreeFor(cfg, n, SpecApply(r, m), SpecApply(r, m'), w)
    ensures WorkerOf(cfg, n, BinOf(cfg, r.key)) != w ==> AgreeFor(cfg, n, SpecApply(r, m), m', w)
  {
  }

  lemma SelfAgrees(cfg: Config, n: nat, m: KeyMap, w: nat)
    requires ValidSetup(cfg, n)
    ensures AgreeFor(cfg, n, m, m, w)
  {
  }

  /** For the keys of w, running the whole log and running only the requests of w agree. */
  lemma {:induction false} LocalRunAgrees(cfg: Config, n: nat, log: seq<Request>, w: nat)
    requires ValidSetup(cfg, n)
    ensures AgreeFor(cfg, n, SpecRun(log), SpecRun(Mine(cfg, n, log, w)), w)
    decreases |log|
  {
    hide AgreeFor, SpecApply, SpecRun;
    if log == [] {
      SelfAgrees(cfg, n, SpecRun([]), w);
    } else {
      var front, last := log[..|log| - 1], log[|log| - 1];
      var mine := Mine(cfg, n, front, w);
      LocalRunAgrees(cfg, n, front, w);
      ApplyAgrees(cfg, n, last, SpecRun(front), SpecRun(mine), w);
      RunSnoc(front, last);
      RunSnoc(mine, last);
      assert front + [last] == log;
    }
  }

  lemma RunSnoc(log: seq<Request>, last: Request)
    ensures SpecRun(log + [last]) == SpecApply(last, SpecRun(log))
  {
    assert (log + [last])[..|log|] == log;
  }

  lemma AnswersSnoc(maxBuf: nat, log: seq<Request>, last: Request)
    ensures SpecAnswers(maxBuf, log + [last])
         == SpecAnswers(maxBuf, log) + [SpecAnswer(maxBuf, last, SpecRun(log))]
  {
    assert (log + [last])[..|log|] == log;
  }

  /** The answers to a prefix of a log are a prefix of the answers. */
  lemma {:induction false} AnswersPrefix(maxBuf: nat, log: seq<Request>, c: nat)
    requires c <= |log|
    ensures SpecAnswers(maxBuf, log[..c]) == SpecAnswers(maxBuf, log)[..c]
    decreases |log|
  {
    hide SpecRun, SpecAnswer, SpecAnswers;
    if c == |log| {
      assert log[..c] == log;
    } else {
      var front, last := log[..|log| - 1], log[|log| - 1];
      AnswersPrefix(maxBuf, front, c);
      assert front[..c] == log[..c];
      assert front + [last] == log;
      AnswersSnoc(maxBuf, front, last);
      assert SpecAnswers(maxBuf, front) <= SpecAnswers(maxBuf, log);
    }
  }

  lemma OnlyOfSnoc(cfg: Config, n: nat, answers: seq<Answer>, last: Answer, w: nat)
    requires ValidSetup(cfg, n)
    ensures OnlyOf(cfg, n, answers + [last], w)
         == OnlyOf(cfg, n, answers, w) + (if Route(cfg, n, last.req) == w then [last] else [])
  {
    assert (answers + [last])[..|answers|] == answers;
  }

  /** For a request of w, the reply depends only on the keys of w. */
  lemma ReplyAgrees(cfg: Config, n: nat, req: Request, m: KeyMap, m': KeyMap, w: nat)
    requires ValidSetup(cfg, n) && AgreeFor(cfg, n, m, m', w) && Route(cfg, n, req) == w
    ensures SpecReply(cfg.maxBuf, req, m) == SpecReply(cfg.maxBuf, req, m')
  {
  }

  /** Filtering the global answers gives the answers of the local run. */
  lemma {:induction false} LocalAnswersAgree(cfg: Config, n: nat, log: seq<Request>, w: nat)
    requires ValidSetup(cfg, n)
    ensures OnlyOf(cfg, n, SpecAnswers(cfg.maxBuf, log), w) == SpecAnswers(cfg.maxBuf, Mine(cfg, n, log, w))
    decreases |log|
  {
    if log != [] {
      var front, last := log[..|log| - 1], log[|log| - 1];
      var mine := Mine(cfg, n, front, w);
      assert front + [last] == log;
      LocalAnswersAgree(cfg, n, front, w);
      AnswersSnoc(cfg.maxBuf, front, last);
      OnlyOfSnoc(cfg, n, SpecAnswers(cfg.maxBuf, front), SpecAnswer(cfg.maxBuf, last, SpecRun(front)), w);
      if Route(cfg, n, last) == w {
        LocalRunAgrees(cfg, n, front, w);
        ReplyAgrees(cfg, n, last, SpecRun(front), SpecRun(mine), w);
        AnswersSnoc(cfg.maxBuf, mine, last);
      }
    }
  }

  // ---------------------------------------------------------------- ownership of groups

  /** The single worker of a root group. */
  function OwnerOf(cfg: Config, n: nat, g: nat): (w: nat)
    requires ValidSetup(cfg, n) && IsGroup(cfg, g)
    ensures w < n
  {
    WorkerOf(cfg, n, Lo(cfg, g))
  }

  /** Every bucket of a group has the worker of the group. */
  lemma GroupOwner(cfg: Config, n: nat, g: nat, b: nat)
    requires ValidSetup(cfg, n) && IsGroup(cfg, g) && InGroup(cfg, g, b)
    ensures WorkerOf(cfg, n, b) == OwnerOf(cfg, n, g)
  {
    var r := Ratio(cfg);
    Partition.OwnerInRangeIff(cfg.size, n);
    Partition.DivIs(b, r, g);
    Partition.DivIs(Lo(cfg, g), r, g);
    Partition.AlignedGroup(r, cfg.size / n, b, Lo(cfg, g));
  }

  lemma RequestOwner(cfg: Config, n: nat, req: Request)
    requires ValidSetup(cfg, n)
    ensures OwnerOf(cfg, n, GroupOfRequest(cfg, req)) == Route(cfg, n, req)
  {
    GroupOwner(cfg, n, GroupOfRequest(cfg, req), BinOfRequest(cfg, req));
  }

  // ---------------------------------------------------------------- one worker, without the table

  /** Everything of one worker except the table: its share of the log, its queue and its answers. */
  datatype Local = Local(mine: seq<Request>, pc: Pc, queue: seq<Job>, answers: seq<Answer>, quitAt: Option<nat>)

  /** Number of leading jobs before the first quit. */
  function BeforeQuit(jobs: seq<Job>): (k: nat)
    ensures k <= |jobs|
    ensures forall i :: 0 <= i < k ==> jobs[i].Serve?
    ensures k < |jobs| ==> jobs[k].Quit?
  {
    if jobs == [] || jobs[0].Quit? then 0 else 1 + BeforeQuit(jobs[1..])
  }

  /** The queue holds what is left of the worker's share; its answers are those of its own run. */
  predicate QueueOk(maxBuf: nat, l: Local) {
    var p, a := Popped(l.pc, l.answers), |l.answers|;
    && 0 <= p <= a <= |l.mine|
    && Requested(l.queue) == l.mine[p..]
    && l.answers == SpecAnswers(maxBuf, l.mine[..a])
  }

  /** The quit sits behind exactly the requests that were queued before it. */
  predicate QuitOk(l: Local) {
    match l.quitAt
    case None => !l.pc.Stopped? && !l.pc.Quitting? && BeforeQuit(l.queue) == |l.queue|
    case Some(q) =>
      if l.pc.Stopped? then |l.answers| == q
      else Popped(l.pc, l.answers) + BeforeQuit(l.queue) == q && BeforeQuit(l.queue) < |l.queue|
  }

  /** The front job is request req, the next one of the worker's share. */
  predicate AtFront(l: Local, req: Request) {
    var p := Popped(l.pc, l.answers);
    && l.queue != [] && l.queue[0] == Serve(req)
    && 0 <= p < |l.mine| && l.mine[p] == req
  }

  predicate Busy(pc: Pc) {
    pc.Serving? || pc.Searched? || pc.Written? || pc.Answering? || pc.Popping?
  }

  /** A busy worker is busy with its front job, and an answer it has ready is the right one. */
  predicate FrontOk(maxBuf: nat, l: Local) {
    && (Busy(l.pc) ==> AtFront(l, l.pc.req))
    && (l.pc.Answering? && |l.answers| <= |l.mine| ==>
          l.pc.reply == SpecReply(maxBuf, l.pc.req, SpecRun(l.mine[..|l.answers|])))
    && (l.pc.Quitting? ==> l.queue != [] && l.queue[0].Quit?)
  }

  predicate LocalOk(maxBuf: nat, l: Local) {
    QueueOk(maxBuf, l) && QuitOk(l) && FrontOk(maxBuf, l)
  }

  /** Requests of the worker whose effect on the table is complete. */
  function Effects(l: Local): nat {
    |l.answers| + (if l.pc.Answering? then 1 else 0)
  }

  /** The plain map after those requests. */
  function MapOf(l: Local): KeyMap {
    if Effects(l) <= |l.mine| then SpecRun(l.mine[..Effects(l)]) else map[]
  }

  lemma {:induction false} RequestedConcat(a: seq<Job>, b: seq<Job>)
    ensures Requested(a + b) == Requested(a) + Requested(b)
    decreases |b|
  {
    if b == [] {
      assert a + b == a;
    } else {
      var front, last := b[..|b| - 1], b[|b| - 1];
      RequestedConcat(a, front);
      assert (a + b)[..|a + b| - 1] == a + front;
    }
  }

  lemma RequestedOne(j: Job)
    ensures Requested([j]) == (if j.Serve? then [j.req] else [])
  {
    assert [j][..0] == [];
  }

  /** Removing the front job removes its request, if it is one. */
  lemma RequestedHead(jobs: seq<Job>)
    requires jobs != []
    ensures jobs[0].Serve? ==> Requested(jobs) == [jobs[0].req] + Requested(jobs[1..])
    ensures jobs[0].Quit? ==> Requested(jobs) == Requested(jobs[1..])
  {
    assert jobs == [jobs[0]] + jobs[1..];
    RequestedConcat([jobs[0]], jobs[1..]);
    RequestedOne(jobs[0]);
  }

  lemma {:induction false} BeforeQuitPush(jobs: seq<Job>, j: Job)
    ensures BeforeQuit(jobs + [j])
         == (if BeforeQuit(jobs) == |jobs| && j.Serve? then |jobs| + 1 else BeforeQuit(jobs))
  {
    if jobs == [] {
      assert [j][1..] == [];
      assert jobs + [j] == [j];
    } else {
      assert (jobs + [j])[1..] == jobs[1..] + [j];
      BeforeQuitPush(jobs[1..], j);
    }
  }

  lemma {:induction false} AllServe(jobs: seq<Job>)
    requires BeforeQuit(jobs) == |jobs|
    ensures |Requested(jobs)| == |jobs|
    decreases |jobs|
  {
    if jobs != [] {
      RequestedHead(jobs);
      AllServe(jobs[1..]);
    }
  }

  // what each step does to the local part

  lemma LocalTake(maxBuf: nat, l: Local, l': Local)
    requires LocalOk(maxBuf, l) && l.pc.Idle? && l.queue != []
    requires l' == l.(pc := if l.queue[0].Quit? then Quitting else Serving(l.queue[0].req))
    ensures LocalOk(maxBuf, l') && MapOf(l') == MapOf(l)
  {
    RequestedHead(l.queue);
    if l.queue[0].Serve? {
      assert l.mine[|l.answers|..][0] == l.queue[0].req;
    }
  }

  /** Moves inside one request before its effect is complete. */
  lemma LocalMove(maxBuf: nat, l: Local, l': Local)
    requires LocalOk(maxBuf, l) && (l.pc.Serving? || l.pc.Searched?)
    requires l' == l.(pc := l'.pc) && (l'.pc.Searched? || l'.pc.Written?) && l'.pc.req == l.pc.req
    ensures LocalOk(maxBuf, l') && MapOf(l') == MapOf(l)
  {
  }

  /** Completing the effect of a request moves the map on by that request. */
  lemma LocalEffect(maxBuf: nat, l: Local, l': Local)
    requires LocalOk(maxBuf, l) && (l.pc.Searched? || l.pc.Written?)
    requires l' == l.(pc := Answering(l.pc.req, SpecReply(maxBuf, l.pc.req, MapOf(l))))
    ensures LocalOk(maxBuf, l') && MapOf(l') == SpecApply(l.pc.req, MapOf(l))
  {
    var a := |l.answers|;
    assert l.mine[..a + 1] == l.mine[..a] + [l.pc.req];
    RunSnoc(l.mine[..a], l.pc.req);
  }

  lemma LocalReturn(maxBuf: nat, l: Local, l': Local)
    requires LocalOk(maxBuf, l) && l.pc.Answering?
    requires l' == l.(pc := Popping(l.pc.req), answers := l.answers + [Answer(l.pc.req, l.pc.reply)])
    ensures LocalOk(maxBuf, l') && MapOf(l') == MapOf(l)
  {
    hide SpecRun, SpecReply, SpecAnswers, BeforeQuit, Requested;
    var a := |l.answers|;
    assert l.mine[..a + 1] == l.mine[..a] + [l.pc.req];
    AnswersSnoc(maxBuf, l.mine[..a], l.pc.req);
  }

  lemma LocalPop(maxBuf: nat, l: Local, l': Local)
    requires LocalOk(maxBuf, l) && l.pc.Popping?
    requires l.queue != [] && l' == l.(pc := Idle, queue := l.queue[1..])
    ensures LocalOk(maxBuf, l') && MapOf(l') == MapOf(l)
  {
    hide SpecRun, SpecReply, SpecAnswers, Requested;
    RequestedHead(l.queue);
    var p := Popped(l.pc, l.answers);
    assert l.mine[p..][1..] == l.mine[p + 1..];
  }

  lemma LocalStop(maxBuf: nat, l: Local, l': Local)
    requires LocalOk(maxBuf, l) && l.pc.Quitting?
    requires l.queue != [] && l' == l.(pc := Stopped, queue := l.queue[1..])
    ensures LocalOk(maxBuf, l') && MapOf(l') == MapOf(l)
  {
    RequestedHead(l.queue);
  }

  lemma PrefixTake<T>(a: seq<T>, b: seq<T>, k: nat)
    requires a <= b && k <= |a|
    ensures a[..k] == b[..k]
  {
  }

  lemma QueueDispatch(maxBuf: nat, l: Local, l': Local, req: Request)
    requires QueueOk(maxBuf, l)
    requires l' == l.(mine := l.mine + [req], queue := l.queue + [Serve(req)])
    ensures QueueOk(maxBuf, l')
  {
    var p, a := Popped(l.pc, l.answers), |l.answers|;
    RequestedConcat(l.queue, [Serve(req)]);
    RequestedOne(Serve(req));
    assert l'.mine[p..] == l.mine[p..] + [req];
    PrefixTake(l.mine, l'.mine, a);
  }

  lemma LocalDispatch(maxBuf: nat, l: Local, l': Local, req: Request)
    requires LocalOk(maxBuf, l)
    requires l' == l.(mine := l.mine + [req], queue := l.queue + [Serve(req)])
    ensures LocalOk(maxBuf, l') && MapOf(l') == MapOf(l)
  {
    QueueDispatch(maxBuf, l, l', req);
    assert QuitOk(l') by {
      BeforeQuitPush(l.queue, Serve(req));
    }
    PrefixTake(l.mine, l'.mine, |l.answers|);
    PrefixTake(l.mine, l'.mine, Effects(l));
  }

  lemma QuitPushQuit(maxBuf: nat, l: Local, l': Local)
    requires QueueOk(maxBuf, l) && QuitOk(l)
    requires l' == l.(queue := l.queue + [Quit],
                      quitAt := if l.quitAt.None? then Some(Queued(l.pc, l.answers, l.queue)) else l.quitAt)
    ensures QuitOk(l')
  {
    hide SpecAnswers;
    BeforeQuitPush(l.queue, Quit);
    if l.quitAt.None? {
      AllServe(l.queue);
    }
  }

  lemma LocalPushQuit(maxBuf: nat, l: Local, l': Local)
    requires LocalOk(maxBuf, l)
    requires l' == l.(queue := l.queue + [Quit],
                      quitAt := if l.quitAt.None? then Some(Queued(l.pc, l.answers, l.queue)) else l.quitAt)
    ensures LocalOk(maxBuf, l') && MapOf(l') == MapOf(l)
  {
    hide SpecRun, SpecReply, SpecAnswers;
    QuitPushQuit(maxBuf, l, l');
    hide QuitOk;
    RequestedConcat(l.queue, [Quit]);
    RequestedOne(Quit);
  }

  // ---------------------------------------------------------------- the invariant

  predicate ServableLog(cfg: Config, log: seq<Request>) {
    forall i :: 0 <= i < |log| ==> Servable(log[i], cfg.maxBuf)
  }

  ghost predicate Basic(cfg: Config, n: nat, st: State) {
    && ValidSetup(cfg, n) && Shape(cfg, st.store) && Sizes(n, st)
    && ServableLog(cfg, st.log)
    && (st.dispatcher.SendingQuit? ==> st.dispatcher.next < n)
    && st.failed <= st.tainted
    && (!cfg.macOpt ==> st.tainted == {})
  }

  ghost function LocalOf(cfg: Config, n: nat, st: State, w: nat): Local
    requires Basic(cfg, n, st) && w < n
  {
    Local(Mine(cfg, n, st.log, w), st.pcs[w], st.queues[w], st.answers[w], st.quitAt[w])
  }

  /** Requests of a worker's share can be served and are routed to it. */
  lemma FrontServable(cfg: Config, n: nat, st: State, w: nat, req: Request)
    requires Basic(cfg, n, st) && w < n && AtFront(LocalOf(cfg, n, st, w), req)
    ensures Servable(req, cfg.maxBuf) && Route(cfg, n, req) == w
  {
    var l := LocalOf(cfg, n, st, w);
    assert l.mine[Popped(l.pc, l.answers)] in st.log;
  }

  /** What a worker knows about the table: the result of its search, or the table it wrote to. */
  ghost predicate TableOk(cfg: Config, st: State, pc: Pc, m: KeyMap)
    requires ValidConfig(cfg) && Shape(cfg, st.store)
  {
    && (pc.Searched? ==>
          var chain := st.store.chains[BinOfRequest(cfg, pc.req)];
          pc.pos == Find(cfg.cipher, chain, pc.req.key) && pc.found == (pc.pos < |chain|))
    && (pc.Written? ==> WrittenOk(cfg, st, pc, m))
  }

  /** Between the write and the rebuild, the group is the written form of a good earlier table. */
  ghost predicate WrittenOk(cfg: Config, st: State, pc: Pc, m: KeyMap)
    requires ValidConfig(cfg) && Shape(cfg, st.store) && pc.Written?
  {
    var key, b, g := pc.req.key, BinOfRequest(cfg, pc.req), GroupOfRequest(cfg, pc.req);
    && Shape(cfg, pc.pre)
    && BucketsOk(cfg, pc.pre, g) && GroupRefines(cfg, pc.pre, m, g)
    && pc.pos == SearchPos(cfg, pc.pre, key)
    && pc.isInsert == (pc.pos == |pc.pre.chains[b]|)
    && pc.prev == PrevMac(pc.pre, b, pc.pos, pc.prev)
    && (pc.req.op == Set || (pc.req.op == Append && !pc.isInsert))
    && Room(cfg, pc.pre, key)
    && SameGroup(cfg, st.store, WriteTable(cfg, pc.pre, pc.req, pc.pos, pc.rand), g)
    && (g !in st.tainted ==>
          GroupIntact(cfg, pc.pre, g) && !Misaligned(cfg, pc.req.op, pc.pos, pc.pre.chains[b]))
  }

  lemma WorkerAt(cfg: Config, n: nat, st: State, w: nat)
    requires Inv(cfg, n, st) && w < n
    ensures Basic(cfg, n, st) && WorkerInv(cfg, n, st, w) && LocalOk(cfg.maxBuf, LocalOf(cfg, n, st, w))
  {
  }

  /** A group between operations: good buckets, the map of its owner, and intact unless tainted. */
  ghost predicate Settled(cfg: Config, st: State, m: KeyMap, g: nat)
    requires ValidConfig(cfg) && Shape(cfg, st.store) && IsGroup(cfg, g)
  {
    && BucketsOk(cfg, st.store, g)
    && GroupRefines(cfg, st.store, m, g)
    && (g !in st.tainted ==> GroupIntact(cfg, st.store, g))
  }

  /** Whether the owner of the group is between its write and its rebuild there. */
  predicate Unsettled(cfg: Config, pc: Pc, g: nat)
    requires 0 < cfg.roots && 0 < cfg.size
  {
    pc.Written? && InGroup(cfg, g, BinOfRequest(cfg, pc.req))
  }

  ghost predicate GroupInv(cfg: Config, n: nat, st: State, g: nat)
    requires Basic(cfg, n, st) && IsGroup(cfg, g)
  {
    var w := OwnerOf(cfg, n, g);
    Unsettled(cfg, st.pcs[w], g) || Settled(cfg, st, MapOf(LocalOf(cfg, n, st, w)), g)
  }

  ghost predicate WorkerInv(cfg: Config, n: nat, st: State, w: nat)
    requires Basic(cfg, n, st) && w < n
  {
    var l := LocalOf(cfg, n, st, w);
    LocalOk(cfg.maxBuf, l) && TableOk(cfg, st, l.pc, MapOf(l))
  }

  ghost predicate Inv(cfg: Config, n: nat, st: State) {
    && Basic(cfg, n, st)
    && (forall w: nat :: w < n ==> WorkerInv(cfg, n, st, w))
    && (forall g: nat :: IsGroup(cfg, g) ==> GroupInv(cfg, n, st, g))
  }

  // ---------------------------------------------------------------- frames

  lemma SameGroupTrans(cfg: Config, s: Store, t: Store, u: Store, g: nat)
    requires ValidConfig(cfg) && Shape(cfg, s) && Shape(cfg, t) && Shape(cfg, u) && IsGroup(cfg, g)
    requires SameGroup(cfg, s, t, g) && SameGroup(cfg, s, u, g)
    ensures SameGroup(cfg, t, u, g)
  {
  }

  /** The groups of worker v, and their taint, are as before. */
  ghost predicate SameTables(cfg: Config, n: nat, st: State, st': State, v: nat)
    requires Basic(cfg, n, st) && Basic(cfg, n, st') && v < n
  {
    forall g: nat :: IsGroup(cfg, g) && OwnerOf(cfg, n, g) == v ==>
      SameGroup(cfg, st.store, st'.store, g) && (g in st.tainted <==> g in st'.tainted)
  }

  /** What a worker knows about the table stays true while its groups stay as they are. */
  lemma KeepTable(cfg: Config, n: nat, st: State, st': State, v: nat, pc: Pc, m: KeyMap)
    requires Basic(cfg, n, st) && Basic(cfg, n, st') && v < n && SameTables(cfg, n, st, st', v)
    requires Busy(pc) ==> Route(cfg, n, pc.req) == v
    requires TableOk(cfg, st, pc, m)
    ensures TableOk(cfg, st', pc, m)
  {
    if pc.Searched? || pc.Written? {
      var g := GroupOfRequest(cfg, pc.req);
      RequestOwner(cfg, n, pc.req);
      assert SameGroup(cfg, st.store, st'.store, g);
      assert InGroup(cfg, g, BinOfRequest(cfg, pc.req));
      if pc.Written? {
        SameGroupTrans(cfg, st.store, st'.store, WriteTable(cfg, pc.pre, pc.req, pc.pos, pc.rand), g);
      }
    }
  }

  /** Worker v is as before, or has only seen its queue and share of the log grow. */
  lemma KeepWorker(cfg: Config, n: nat, st: State, st': State, v: nat)
    requires Basic(cfg, n, st) && Basic(cfg, n, st') && v < n && WorkerInv(cfg, n, st, v)
    requires SameTables(cfg, n, st, st', v)
    requires var (l, l') := (LocalOf(cfg, n, st, v), LocalOf(cfg, n, st', v));
             LocalOk(cfg.maxBuf, l') && l'.pc == l.pc && MapOf(l') == MapOf(l)
    ensures WorkerInv(cfg, n, st', v)
  {
    var l := LocalOf(cfg, n, st, v);
    if Busy(l.pc) {
      FrontServable(cfg, n, st, v, l.pc.req);
    }
    KeepTable(cfg, n, st, st', v, l.pc, MapOf(l));
  }

  /** A group whose owner has the same map and is not writing there stays as it is. */
  lemma KeepGroup(cfg: Config, n: nat, st: State, st': State, g: nat)
    requires Basic(cfg, n, st) && Basic(cfg, n, st') && IsGroup(cfg, g) && GroupInv(cfg, n, st, g)
    requires SameGroup(cfg, st.store, st'.store, g) && (g in st.tainted <==> g in st'.tainted)
    requires var v := OwnerOf(cfg, n, g);
             var (l, l') := (LocalOf(cfg, n, st, v), LocalOf(cfg, n, st', v));
             && (l'.pc == l.pc || !Unsettled(cfg, l.pc, g))
             && SameOnGroup(cfg, MapOf(l), MapOf(l'), g)
    ensures GroupInv(cfg, n, st', g)
  {
    var v := OwnerOf(cfg, n, g);
    var m, m' := MapOf(LocalOf(cfg, n, st, v)), MapOf(LocalOf(cfg, n, st', v));
    if !Unsettled(cfg, st.pcs[v], g) {
      SameGroupKeeps(cfg, st.store, st'.store, m, g);
      RefinesSame(cfg, st'.store, m, m', g);
    }
  }

  /** Two maps agree on the keys of group h. */
  ghost predicate SameOnGroup(cfg: Config, m: KeyMap, m': KeyMap, h: nat)
    requires 0 < cfg.roots && 0 < cfg.size
  {
    forall k :: InGroup(cfg, h, BinOf(cfg, k)) ==> (k in m <==> k in m') && (k in m ==> m[k] == m'[k])
  }

  lemma RefinesSame(cfg: Config, s: Store, m: KeyMap, m': KeyMap, h: nat)
    requires ValidConfig(cfg) && Shape(cfg, s) && IsGroup(cfg, h)
    requires SameOnGroup(cfg, m, m', h) && GroupRefines(cfg, s, m, h)
    ensures GroupRefines(cfg, s, m', h)
  {
    forall b | InGroup(cfg, h, b) ensures ChainRefines(cfg, s.chains[b], m', b) {
      assert ChainRefines(cfg, s.chains[b], m, b);
    }
  }

  /** Only worker w has moved, and only group g has changed, if any. */
  ghost predicate OnlyWorker(cfg: Config, n: nat, st: State, st': State, w: nat, g: nat)
    requires Basic(cfg, n, st) && Basic(cfg, n, st') && w < n
  {
    && (forall v: nat :: v < n && v != w ==> LocalOf(cfg, n, st', v) == LocalOf(cfg, n, st, v))
    && (forall h: nat :: IsGroup(cfg, h) && h != g ==>
          SameGroup(cfg, st.store, st'.store, h) && (h in st.tainted <==> h in st'.tainted))
  }

  /** The map of w has moved on by req, if at all. */
  predicate MapMoves(req: Request, m: KeyMap, m': KeyMap) {
    m' == m || m' == SpecApply(req, m)
  }

  /** A request changes no key of another group. */
  lemma ApplyOutside(cfg: Config, req: Request, m: KeyMap, m': KeyMap, h: nat)
    requires ValidConfig(cfg) && IsGroup(cfg, h) && h != GroupOfRequest(cfg, req) && MapMoves(req, m, m')
    ensures SameOnGroup(cfg, m, m', h) && !InGroup(cfg, h, BinOfRequest(cfg, req))
  {
    if InGroup(cfg, h, BinOfRequest(cfg, req)) {
      GroupsDisjoint(cfg, h, GroupOfRequest(cfg, req), BinOfRequest(cfg, req));
    }
  }

  /** A step of w for request req has to account for w and for the group of req only. */
  lemma WorkerStep(cfg: Config, n: nat, st: State, st': State, w: nat, req: Request)
    requires Inv(cfg, n, st) && Basic(cfg, n, st') && w < n && Route(cfg, n, req) == w
    requires OnlyWorker(cfg, n, st, st', w, GroupOfRequest(cfg, req))
    requires st.pcs[w].Written? ==> st.pcs[w].req == req
    requires MapMoves(req, MapOf(LocalOf(cfg, n, st, w)), MapOf(LocalOf(cfg, n, st', w)))
    requires WorkerInv(cfg, n, st', w) && GroupInv(cfg, n, st', GroupOfRequest(cfg, req))
    ensures Inv(cfg, n, st')
  {
    hide LocalOk, TableOk, Settled, MapOf, SameGroup;
    var g := GroupOfRequest(cfg, req);
    RequestOwner(cfg, n, req);
    forall v: nat | v < n ensures WorkerInv(cfg, n, st', v) {
      if v != w {
        assert WorkerInv(cfg, n, st, v);
        KeepWorker(cfg, n, st, st', v);
      }
    }
    forall h: nat | IsGroup(cfg, h) ensures GroupInv(cfg, n, st', h) {
      if h != g {
        assert GroupInv(cfg, n, st, h);
        ApplyOutside(cfg, req, MapOf(LocalOf(cfg, n, st, w)), MapOf(LocalOf(cfg, n, st', w)), h);
        KeepGroup(cfg, n, st, st', h);
      }
    }
  }

  /** A step of w that changes neither the table nor its map has to account for w only. */
  lemma QuietStep(cfg: Config, n: nat, st: State, st': State, w: nat)
    requires Inv(cfg, n, st) && Basic(cfg, n, st') && w < n
    requires st'.store == st.store && st'.tainted == st.tainted && !st.pcs[w].Written?
    requires forall v: nat :: v < n && v != w ==> LocalOf(cfg, n, st', v) == LocalOf(cfg, n, st, v)
    requires MapOf(LocalOf(cfg, n, st', w)) == MapOf(LocalOf(cfg, n, st, w))
    requires WorkerInv(cfg, n, st', w)
    ensures Inv(cfg, n, st')
  {
    forall v: nat | v < n ensures WorkerInv(cfg, n, st', v) {
      if v != w {
        assert WorkerInv(cfg, n, st, v);
        KeepWorker(cfg, n, st, st', v);
      }
    }
    forall h: nat | IsGroup(cfg, h) ensures GroupInv(cfg, n, st', h) {
      assert GroupInv(cfg, n, st, h);
      KeepGroup(cfg, n, st, st', h);
    }
  }

  // ---------------------------------------------------------------- steps that leave the table alone

  lemma TakeKeeps(cfg: Config, n: nat, st: State, w: nat)
    requires Inv(cfg, n, st) && Enabled(cfg, n, st, Take(w))
    ensures Inv(cfg, n, Next(cfg, n, st, Take(w)))
  {
    var st' := Next(cfg, n, st, Take(w));
    assert WorkerInv(cfg, n, st, w);
    LocalTake(cfg.maxBuf, LocalOf(cfg, n, st, w), LocalOf(cfg, n, st', w));
    QuietStep(cfg, n, st, st', w);
  }

  lemma ReturnKeeps(cfg: Config, n: nat, st: State, w: nat)
    requires Inv(cfg, n, st) && Enabled(cfg, n, st, Return(w))
    ensures Inv(cfg, n, Next(cfg, n, st, Return(w)))
  {
    hide LocalOk, MapOf, GroupInv, SpecReply, SpecRun;
    var st' := Next(cfg, n, st, Return(w));
    WorkerAt(cfg, n, st, w);
    LocalReturn(cfg.maxBuf, LocalOf(cfg, n, st, w), LocalOf(cfg, n, st', w));
    QuietStep(cfg, n, st, st', w);
  }

  lemma PopKeeps(cfg: Config, n: nat, st: State, w: nat)
    requires Inv(cfg, n, st) && Enabled(cfg, n, st, Pop(w))
    ensures Inv(cfg, n, Next(cfg, n, st, Pop(w)))
  {
    var st' := Next(cfg, n, st, Pop(w));
    assert WorkerInv(cfg, n, st, w);
    LocalPop(cfg.maxBuf, LocalOf(cfg, n, st, w), LocalOf(cfg, n, st', w));
    QuietStep(cfg, n, st, st', w);
  }

  lemma StopKeeps(cfg: Config, n: nat, st: State, w: nat)
    requires Inv(cfg, n, st) && Enabled(cfg, n, st, Stop(w))
    ensures Inv(cfg, n, Next(cfg, n, st, Stop(w)))
  {
    var st' := Next(cfg, n, st, Stop(w));
    assert WorkerInv(cfg, n, st, w);
    LocalStop(cfg.maxBuf, LocalOf(cfg, n, st, w), LocalOf(cfg, n, st', w));
    QuietStep(cfg, n, st, st', w);
  }

  /** In the bucket of any request of a worker that is not mid-update, both search modes agree. */
  lemma BothSearchesAgree(cfg: Config, n: nat, st: State, w: nat, req: Request)
    requires Inv(cfg, n, st) && w < n && !st.pcs[w].Written? && Route(cfg, n, req) == w
    ensures var chain := st.store.chains[BinOfRequest(cfg, req)];
            SearchIn(cfg, chain, req.key) == Find(cfg.cipher, chain, req.key)
  {
    var g, b := GroupOfRequest(cfg, req), BinOfRequest(cfg, req);
    RequestOwner(cfg, n, req);
    assert GroupInv(cfg, n, st, g) && InGroup(cfg, g, b);
    assert BucketOk(cfg, st.store, b);
    HintSearchAgrees(cfg.cipher, st.store.chains[b], req.key);
  }

  lemma SearchKeeps(cfg: Config, n: nat, st: State, w: nat)
    requires Inv(cfg, n, st) && Enabled(cfg, n, st, Search(w))
    ensures Inv(cfg, n, Next(cfg, n, st, Search(w)))
  {
    var st', req := Next(cfg, n, st, Search(w)), st.pcs[w].req;
    assert WorkerInv(cfg, n, st, w);
    FrontServable(cfg, n, st, w, req);
    BothSearchesAgree(cfg, n, st, w, req);
    LocalMove(cfg.maxBuf, LocalOf(cfg, n, st, w), LocalOf(cfg, n, st', w));
    QuietStep(cfg, n, st, st', w);
  }

  /** Whether the search hit is whether the key is in the map, and the entry holds its value. */
  lemma SearchTruth(cfg: Config, n: nat, st: State, w: nat)
    requires Inv(cfg, n, st) && w < n && st.pcs[w].Searched?
    ensures var pc := st.pcs[w];
            var (m, b) := (MapOf(LocalOf(cfg, n, st, w)), BinOfRequest(cfg, pc.req));
            var g := GroupOfRequest(cfg, pc.req);
            && Servable(pc.req, cfg.maxBuf) && Route(cfg, n, pc.req) == w
            && Settled(cfg, st, m, g)
            && pc.pos == SearchPos(cfg, st.store, pc.req.key) && pc.pos <= |st.store.chains[b]|
            && (pc.found <==> pc.pos < |st.store.chains[b]|)
            && (pc.found <==> pc.req.key in m)
            && (pc.found ==> ValIn(cfg.cipher, st.store.chains[b][pc.pos]) == m[pc.req.key])
            && (pc.found && g !in st.tainted ==> RootVerifies(cfg, st.store, b))
  {
    var pc, m := st.pcs[w], MapOf(LocalOf(cfg, n, st, w));
    assert WorkerInv(cfg, n, st, w);
    FrontServable(cfg, n, st, w, pc.req);
    RequestOwner(cfg, n, pc.req);
    assert GroupInv(cfg, n, st, GroupOfRequest(cfg, pc.req));
    GetCorrect(cfg, st.store, m, pc.req.key);
  }

  /** An answer from a search that changed nothing. */
  lemma AnswerKeeps(cfg: Config, n: nat, st: State, st': State, w: nat)
    requires Inv(cfg, n, st) && Basic(cfg, n, st') && w < n && st.pcs[w].Searched?
    requires var (l, l') := (LocalOf(cfg, n, st, w), LocalOf(cfg, n, st', w));
             && l' == l.(pc := Answering(l.pc.req, SpecReply(cfg.maxBuf, l.pc.req, MapOf(l))))
             && SpecApply(l.pc.req, MapOf(l)) == MapOf(l)
    requires st'.store == st.store && st'.tainted == st.tainted
    requires forall v: nat :: v < n && v != w ==> LocalOf(cfg, n, st', v) == LocalOf(cfg, n, st, v)
    ensures Inv(cfg, n, st')
  {
    assert WorkerInv(cfg, n, st, w);
    LocalEffect(cfg.maxBuf, LocalOf(cfg, n, st, w), LocalOf(cfg, n, st', w));
    QuietStep(cfg, n, st, st', w);
  }

  lemma MissKeeps(cfg: Config, n: nat, st: State, w: nat)
    requires Inv(cfg, n, st) && Enabled(cfg, n, st, Miss(w))
    ensures Inv(cfg, n, Next(cfg, n, st, Miss(w)))
  {
    assert st.pcs[w].req.key !in MapOf(LocalOf(cfg, n, st, w)) by {
      SearchTruth(cfg, n, st, w);
    }
    AnswerKeeps(cfg, n, st, Next(cfg, n, st, Miss(w)), w);
  }

  lemma CheckKeeps(cfg: Config, n: nat, st: State, w: nat)
    requires Inv(cfg, n, st) && Enabled(cfg, n, st, Check(w))
    ensures Inv(cfg, n, Next(cfg, n, st, Check(w)))
  {
    CheckAnswers(cfg, n, st, w);
    hide WorkerInv, GroupInv, MapOf, RootVerifies, ValIn, SpecReply;
    AnswerKeeps(cfg, n, st, Next(cfg, n, st, Check(w)), w);
  }

  lemma CheckAnswers(cfg: Config, n: nat, st: State, w: nat)
    requires Inv(cfg, n, st) && Enabled(cfg, n, st, Check(w))
    ensures var (st', req) := (Next(cfg, n, st, Check(w)), st.pcs[w].req);
            && st'.failed <= st'.tainted
            && st'.pcs[w] == Answering(req, SpecReply(cfg.maxBuf, req, MapOf(LocalOf(cfg, n, st, w))))
  {
    SearchTruth(cfg, n, st, w);
    hide WorkerInv, GroupInv, MapOf, RootVerifies, ValIn;
  }

  // ---------------------------------------------------------------- steps that change the table

  /** The write step changes one bucket and no root. */
  lemma WriteFrame(cfg: Config, store: Store, req: Request, pos: nat, rand: Nac)
    requires ValidConfig(cfg) && Shape(cfg, store)
    requires pos <= |store.chains[BinOfRequest(cfg, req)]|
    requires req.op != Set ==> pos < |store.chains[BinOfRequest(cfg, req)]|
    ensures var t := WriteTable(cfg, store, req, pos, rand);
            forall h: nat :: IsGroup(cfg, h) && h != GroupOfRequest(cfg, req) ==> SameGroup(cfg, store, t, h)
  {
    var b, t := BinOfRequest(cfg, req), WriteTable(cfg, store, req, pos, rand);
    assert OnlyBucket(cfg, store, t, b);
    forall h: nat | IsGroup(cfg, h) && h != GroupOfRequest(cfg, req) ensures SameGroup(cfg, store, t, h) {
      OtherGroupsSame(cfg, store, t, b, h);
    }
  }

  /** What the worker knows right after its write: it wrote to a good table. */
  lemma WrittenKnows(cfg: Config, n: nat, st: State, st': State, w: nat, rand: Nac, junk: Mac)
    requires Inv(cfg, n, st) && Enabled(cfg, n, st, Write(w, rand, junk))
    requires st' == Next(cfg, n, st, Write(w, rand, junk)) && Basic(cfg, n, st')
    ensures WrittenOk(cfg, st', st'.pcs[w], MapOf(LocalOf(cfg, n, st, w)))
    ensures Route(cfg, n, st.pcs[w].req) == w
  {
    SearchTruth(cfg, n, st, w);
  }

  lemma WriteStep(cfg: Config, n: nat, st: State, st': State, w: nat, req: Request)
    requires Inv(cfg, n, st) && Basic(cfg, n, st') && w < n && Route(cfg, n, req) == w
    requires OnlyWorker(cfg, n, st, st', w, GroupOfRequest(cfg, req))
    requires var (l, l') := (LocalOf(cfg, n, st, w), LocalOf(cfg, n, st', w));
             && l.pc.Searched? && l.pc.req == req
             && l' == l.(pc := l'.pc) && l'.pc.Written? && l'.pc.req == req
             && WrittenOk(cfg, st', l'.pc, MapOf(l))
    ensures Inv(cfg, n, st')
  {
    assert WorkerInv(cfg, n, st, w);
    LocalMove(cfg.maxBuf, LocalOf(cfg, n, st, w), LocalOf(cfg, n, st', w));
    RequestOwner(cfg, n, req);
    assert InGroup(cfg, GroupOfRequest(cfg, req), BinOfRequest(cfg, req));
    WorkerStep(cfg, n, st, st', w, req);
  }

  lemma WriteKeeps(cfg: Config, n: nat, st: State, w: nat, rand: Nac, junk: Mac)
    requires Inv(cfg, n, st) && Enabled(cfg, n, st, Write(w, rand, junk))
    ensures Inv(cfg, n, Next(cfg, n, st, Write(w, rand, junk)))
  {
    hide WorkerInv, GroupInv, WrittenOk, WriteTable, MapOf, SameGroup;
    var st', pc := Next(cfg, n, st, Write(w, rand, junk)), st.pcs[w];
    WrittenKnows(cfg, n, st, st', w, rand, junk);
    assert OnlyWorker(cfg, n, st, st', w, GroupOfRequest(cfg, pc.req)) by {
      WriteFrame(cfg, st.store, pc.req, pc.pos, rand);
    }
    WriteStep(cfg, n, st, st', w, pc.req);
  }

  /** The rebuild sees only its own group. */
  lemma RebuildLocal(cfg: Config, s: Store, t: Store, b: nat, pos: nat, isInsert: bool, prev: Mac)
    requires ValidConfig(cfg) && Shape(cfg, s) && Shape(cfg, t) && b < cfg.size
    requires SameGroup(cfg, s, t, GroupOf(cfg, b))
    requires 0 <= RebuildIndex(cfg, t, b, pos, isInsert) < |GroupAgg(cfg, t, GroupOf(cfg, b))|
    ensures 0 <= RebuildIndex(cfg, s, b, pos, isInsert) < |GroupAgg(cfg, s, GroupOf(cfg, b))|
    ensures var (r, q) := (Rebuild(cfg, s, b, pos, isInsert, prev), Rebuild(cfg, t, b, pos, isInsert, prev));
            r.ok == q.ok && SameGroup(cfg, q.store, r.store, GroupOf(cfg, b))
  {
    var g := GroupOf(cfg, b);
    assert forall i :: Lo(cfg, g) <= i < Hi(cfg, g) ==> InGroup(cfg, g, i);
    AggSame(cfg, s, t, Lo(cfg, g), Hi(cfg, g));
    AggSame(cfg, s, t, Lo(cfg, g), b);
  }

  /** The written table rebuilds to a good group that reflects the request. */
  lemma WrittenRebuilds(cfg: Config, st: State, pc: Pc, m: KeyMap)
    requires ValidConfig(cfg) && Shape(cfg, st.store) && pc.Written? && NulFree(pc.req.key)
    requires WrittenOk(cfg, st, pc, m)
    ensures var (b, g) := (BinOfRequest(cfg, pc.req), GroupOfRequest(cfg, pc.req));
            var t := WriteTable(cfg, pc.pre, pc.req, pc.pos, pc.rand);
            && (pc.req.op == Append ==> pc.req.key in m)
            && 0 <= RebuildIndex(cfg, t, b, pc.pos, pc.isInsert) < |GroupAgg(cfg, t, g)|
            && var r := Rebuild(cfg, t, b, pc.pos, pc.isInsert, pc.prev);
            && BucketsOk(cfg, r.store, g)
            && GroupRefines(cfg, r.store, SpecApply(pc.req, m), g)
            && (g !in st.tainted ==> r.ok && GroupIntact(cfg, r.store, g))
  {
    hide BucketsOk, GroupRefines, GroupIntact, Rebuild, RebuildIndex, GroupAgg;
    if pc.req.op == Set {
      SetCorrect(cfg, pc.pre, m, pc.req.key, pc.req.val, pc.rand, pc.prev);
    } else {
      GetCorrect(cfg, pc.pre, m, pc.req.key);
      AppendCorrect(cfg, pc.pre, m, pc.req.key, pc.req.val);
    }
  }

  /** The root step is never out of range, settles the group, and fails only on tainted groups. */
  lemma RootSettles(cfg: Config, n: nat, st: State, w: nat)
    requires Inv(cfg, n, st) && w < n && st.pcs[w].Written?
    ensures var (pc, m) := (st.pcs[w], MapOf(LocalOf(cfg, n, st, w)));
            var (b, g) := (BinOfRequest(cfg, pc.req), GroupOfRequest(cfg, pc.req));
            && Route(cfg, n, pc.req) == w
            && pc.req.op != Get && (pc.req.op == Append ==> pc.req.key in m)
            && RootEnabled(cfg, st.store, pc)
            && var r := Rebuild(cfg, st.store, b, pc.pos, pc.isInsert, pc.prev);
            && BucketsOk(cfg, r.store, g)
            && GroupRefines(cfg, r.store, SpecApply(pc.req, m), g)
            && (g !in st.tainted ==> r.ok && GroupIntact(cfg, r.store, g))
  {
    var pc, m := st.pcs[w], MapOf(LocalOf(cfg, n, st, w));
    var b, g := BinOfRequest(cfg, pc.req), GroupOfRequest(cfg, pc.req);
    assert WorkerInv(cfg, n, st, w);
    FrontServable(cfg, n, st, w, pc.req);
    var t := WriteTable(cfg, pc.pre, pc.req, pc.pos, pc.rand);
    WrittenRebuilds(cfg, st, pc, m);
    RebuildLocal(cfg, st.store, t, b, pc.pos, pc.isInsert, pc.prev);
    var r, q := Rebuild(cfg, st.store, b, pc.pos, pc.isInsert, pc.prev),
                Rebuild(cfg, t, b, pc.pos, pc.isInsert, pc.prev);
    SameGroupKeeps(cfg, q.store, r.store, SpecApply(pc.req, m), g);
  }

  /** The root step changes nothing outside the group of its request. */
  lemma RootFrame(cfg: Config, n: nat, st: State, w: nat)
    requires Basic(cfg, n, st) && Enabled(cfg, n, st, Root(w))
    ensures forall h: nat :: IsGroup(cfg, h) && h != GroupOfRequest(cfg, st.pcs[w].req) ==>
              SameGroup(cfg, st.store, Next(cfg, n, st, Root(w)).store, h)
  {
    var st', pc := Next(cfg, n, st, Root(w)), st.pcs[w];
    var b, g := BinOfRequest(cfg, pc.req), GroupOfRequest(cfg, pc.req);
    RebuildFrame(cfg, st.store, b, pc.pos, pc.isInsert, pc.prev);
    forall h: nat | IsGroup(cfg, h) && h != g ensures SameGroup(cfg, st.store, st'.store, h) {
      OtherGroupsSame(cfg, st.store, st'.store, b, h);
    }
  }

  lemma RootStep(cfg: Config, n: nat, st: State, st': State, w: nat, req: Request)
    requires Inv(cfg, n, st) && Basic(cfg, n, st') && w < n && Route(cfg, n, req) == w
    requires OnlyWorker(cfg, n, st, st', w, GroupOfRequest(cfg, req))
    requires var (l, l') := (LocalOf(cfg, n, st, w), LocalOf(cfg, n, st', w));
             && l.pc.Written? && l.pc.req == req
             && l' == l.(pc := Answering(req, SpecReply(cfg.maxBuf, req, MapOf(l))))
             && Settled(cfg, st', SpecApply(req, MapOf(l)), GroupOfRequest(cfg, req))
    ensures Inv(cfg, n, st')
  {
    hide Inv, Settled, OnlyWorker, LocalOk, MapOf, SpecReply, SpecApply;
    WorkerAt(cfg, n, st, w);
    LocalEffect(cfg.maxBuf, LocalOf(cfg, n, st, w), LocalOf(cfg, n, st', w));
    RequestOwner(cfg, n, req);
    WorkerStep(cfg, n, st, st', w, req);
  }

  lemma RootKeeps(cfg: Config, n: nat, st: State, w: nat)
    requires Inv(cfg, n, st) && Enabled(cfg, n, st, Root(w))
    ensures Inv(cfg, n, Next(cfg, n, st, Root(w)))
  {
    var st', req := Next(cfg, n, st, Root(w)), st.pcs[w].req;
    RootSettles(cfg, n, st, w);
    assert OnlyWorker(cfg, n, st, st', w, GroupOfRequest(cfg, req)) by {
      RootFrame(cfg, n, st, w);
    }
    RootStep(cfg, n, st, st', w, req);
  }

  // ---------------------------------------------------------------- the dispatcher

  lemma MineSnoc(cfg: Config, n: nat, log: seq<Request>, req: Request, v: nat)
    requires ValidSetup(cfg, n)
    ensures Mine(cfg, n, log + [req], v)
         == Mine(cfg, n, log, v) + (if Route(cfg, n, req) == v then [req] else [])
  {
    assert (log + [req])[..|log|] == log;
  }

  /** A step of the dispatcher leaves the table and every worker's place in it alone. */
  lemma DispatcherStep(cfg: Config, n: nat, st: State, st': State)
    requires Inv(cfg, n, st) && Basic(cfg, n, st')
    requires st'.store == st.store && st'.tainted == st.tainted
    requires forall v: nat :: v < n ==>
               var (l, l') := (LocalOf(cfg, n, st, v), LocalOf(cfg, n, st', v));
               LocalOk(cfg.maxBuf, l') && l'.pc == l.pc && MapOf(l') == MapOf(l)
    ensures Inv(cfg, n, st')
  {
    forall v: nat | v < n ensures WorkerInv(cfg, n, st', v) {
      assert WorkerInv(cfg, n, st, v);
      KeepWorker(cfg, n, st, st', v);
    }
    forall g: nat | IsGroup(cfg, g) ensures GroupInv(cfg, n, st', g) {
      assert GroupInv(cfg, n, st, g);
      KeepGroup(cfg, n, st, st', g);
    }
  }

  lemma DispatchKeeps(cfg: Config, n: nat, st: State, buf: seq<byte>)
    requires Inv(cfg, n, st) && Enabled(cfg, n, st, Dispatch(buf))
    ensures Inv(cfg, n, Next(cfg, n, st, Dispatch(buf)))
  {
    KeyFits(buf, cfg.maxBuf);
    DispatchRequest(cfg, n, st, Next(cfg, n, st, Dispatch(buf)), Parse(buf));
  }

  lemma DispatchLocal(cfg: Config, n: nat, st: State, st': State, req: Request, v: nat)
    requires Basic(cfg, n, st) && Basic(cfg, n, st') && v < n && WorkerInv(cfg, n, st, v)
    requires var w := Route(cfg, n, req);
             st' == st.(log := st.log + [req], queues := st.queues[w := st.queues[w] + [Serve(req)]])
    ensures var (l, l') := (LocalOf(cfg, n, st, v), LocalOf(cfg, n, st', v));
            LocalOk(cfg.maxBuf, l') && l'.pc == l.pc && MapOf(l') == MapOf(l)
  {
    MineSnoc(cfg, n, st.log, req, v);
    if Route(cfg, n, req) == v {
      LocalDispatch(cfg.maxBuf, LocalOf(cfg, n, st, v), LocalOf(cfg, n, st', v), req);
    }
  }

  lemma DispatchRequest(cfg: Config, n: nat, st: State, st': State, req: Request)
    requires Inv(cfg, n, st) && Servable(req, cfg.maxBuf)
    requires var w := Route(cfg, n, req);
             st' == st.(log := st.log + [req], queues := st.queues[w := st.queues[w] + [Serve(req)]])
    ensures Inv(cfg, n, st')
  {
    forall v: nat | v < n
      ensures var (l, l') := (LocalOf(cfg, n, st, v), LocalOf(cfg, n, st', v));
              LocalOk(cfg.maxBuf, l') && l'.pc == l.pc && MapOf(l') == MapOf(l)
    {
      DispatchLocal(cfg, n, st, st', req, v);
    }
    DispatcherStep(cfg, n, st, st');
  }

  lemma PushQuitKeeps(cfg: Config, n: nat, st: State)
    requires Inv(cfg, n, st) && Enabled(cfg, n, st, PushQuit)
    ensures Inv(cfg, n, Next(cfg, n, st, PushQuit))
  {
    var st' := Next(cfg, n, st, PushQuit);
    forall v: nat | v < n
      ensures var (l, l') := (LocalOf(cfg, n, st, v), LocalOf(cfg, n, st', v));
              LocalOk(cfg.maxBuf, l') && l'.pc == l.pc && MapOf(l') == MapOf(l)
    {
      assert WorkerInv(cfg, n, st, v);
      PushQuitLocal(cfg, n, st, st', st.dispatcher.next, v);
    }
    DispatcherStep(cfg, n, st, st');
  }

  lemma PushQuitLocal(cfg: Config, n: nat, st: State, st': State, i: nat, v: nat)
    requires Basic(cfg, n, st) && Basic(cfg, n, st') && i < n && v < n
    requires LocalOk(cfg.maxBuf, LocalOf(cfg, n, st, v))
    requires st'.log == st.log && st'.pcs == st.pcs && st'.answers == st.answers
    requires st'.queues == st.queues[i := st.queues[i] + [Quit]]
    requires st'.quitAt == (if st.quitAt[i].None?
                            then st.quitAt[i := Some(Queued(st.pcs[i], st.answers[i], st.queues[i]))] else st.quitAt)
    ensures var (l, l') := (LocalOf(cfg, n, st, v), LocalOf(cfg, n, st', v));
            LocalOk(cfg.maxBuf, l') && l'.pc == l.pc && MapOf(l') == MapOf(l)
  {
    if v == i {
      LocalPushQuit(cfg.maxBuf, LocalOf(cfg, n, st, v), LocalOf(cfg, n, st', v));
    }
  }

  lemma StartQuitKeeps(cfg: Config, n: nat, st: State)
    requires Inv(cfg, n, st) && Enabled(cfg, n, st, StartQuit)
    ensures Inv(cfg, n, Next(cfg, n, st, StartQuit))
  {
    var st' := Next(cfg, n, st, StartQuit);
    forall v: nat | v < n ensures LocalOk(cfg.maxBuf, LocalOf(cfg, n, st', v)) {
      assert WorkerInv(cfg, n, st, v);
    }
    DispatcherStep(cfg, n, st, st');
  }

  // ---------------------------------------------------------------- whole runs

  /** The tables handed to the enclave: no entries, empty buffers with arbitrary slots. */
  ghost predicate EmptyStore(cfg: Config, s: Store) {
    && Shape(cfg, s)
    && forall b :: 0 <= b < cfg.size ==> s.chains[b] == [] && s.bufs[b].size == 0
  }

  lemma {:induction false} EmptyAgg(cfg: Config, s: Store, lo: nat, hi: nat)
    requires EmptyStore(cfg, s) && lo <= hi <= cfg.size
    ensures Agg(cfg, s, lo, hi) == []
    decreases hi
  {
    if lo < hi {
      EmptyAgg(cfg, s, lo, hi - 1);
      assert BucketMacs(cfg, s, hi - 1) == [];
    }
  }

  lemma InitWorker(cfg: Config, n: nat, s: Store, w: nat)
    requires Basic(cfg, n, Init(n, s)) && w < n
    ensures WorkerInv(cfg, n, Init(n, s), w)
  {
    var l := LocalOf(cfg, n, Init(n, s), w);
    assert l == Local([], Idle, [], [], None);
    assert LocalOk(cfg.maxBuf, l);
  }

  lemma InitGroup(cfg: Config, s: Store, g: nat)
    requires ValidConfig(cfg) && EmptyStore(cfg, s) && IsGroup(cfg, g)
    ensures BucketsOk(cfg, s, g) && GroupRefines(cfg, s, map[], g) && GroupIntact(cfg, s, g)
  {
    EmptyAgg(cfg, s, Lo(cfg, g), Hi(cfg, g));
    assert GroupAgg(cfg, s, g) == [];
  }

  lemma InitInv(cfg: Config, n: nat, s: Store)
    requires ValidSetup(cfg, n) && EmptyStore(cfg, s)
    ensures Inv(cfg, n, Init(n, s))
  {
    var st := Init(n, s);
    forall w: nat | w < n ensures WorkerInv(cfg, n, st, w) {
      InitWorker(cfg, n, s, w);
    }
    forall g: nat | IsGroup(cfg, g) ensures GroupInv(cfg, n, st, g) {
      InitGroup(cfg, s, g);
      assert MapOf(LocalOf(cfg, n, st, OwnerOf(cfg, n, g))) == map[];
    }
  }

  lemma StepKeeps(cfg: Config, n: nat, st: State, step: Step)
    requires Inv(cfg, n, st) && Enabled(cfg, n, st, step)
    ensures Inv(cfg, n, Next(cfg, n, st, step))
  {
    match step {
      case Dispatch(buf) => DispatchKeeps(cfg, n, st, buf);
      case StartQuit => StartQuitKeeps(cfg, n, st);
      case PushQuit => PushQuitKeeps(cfg, n, st);
      case Take(w) => TakeKeeps(cfg, n, st, w);
      case Search(w) => SearchKeeps(cfg, n, st, w);
      case Write(w, rand, junk) => WriteKeeps(cfg, n, st, w, rand, junk);
      case Root(w) => RootKeeps(cfg, n, st, w);
      case Miss(w) => MissKeeps(cfg, n, st, w);
      case Check(w) => CheckKeeps(cfg, n, st, w);
      case Return(w) => ReturnKeeps(cfg, n, st, w);
      case Pop(w) => PopKeeps(cfg, n, st, w);
      case Stop(w) => StopKeeps(cfg, n, st, w);
    }
  }

  /** A sequence of states, each the result of an enabled step from the one before. */
  ghost predicate IsRun(cfg: Config, n: nat, run: seq<State>, steps: seq<Step>)
    requires ValidSetup(cfg, n)
  {
    && |run| == |steps| + 1
    && forall i :: 0 <= i < |steps| ==>
         && Shape(cfg, run[i].store) && Sizes(n, run[i])
         && Enabled(cfg, n, run[i], steps[i]) && run[i + 1] == Next(cfg, n, run[i], steps[i])
  }

  lemma {:induction false} RunInv(cfg: Config, n: nat, run: seq<State>, steps: seq<Step>, i: nat)
    requires ValidSetup(cfg, n) && IsRun(cfg, n, run, steps) && i < |run| && Inv(cfg, n, run[0])
    ensures Inv(cfg, n, run[i])
  {
    if 0 < i {
      RunInv(cfg, n, run, steps, i - 1);
      StepKeeps(cfg, n, run[i - 1], steps[i - 1]);
    }
  }

  /** How many of its requests a worker has carried out on the table. */
  function Completed(n: nat, st: State, w: nat): nat
    requires Sizes(n, st) && w < n
  {
    |st.answers[w]| + (if st.pcs[w].Answering? then 1 else 0)
  }

  /**
   * Group g holds what the requests its worker has completed put there, and so the whole log cut
   * after any request at which the worker had been sent just those.
   */
  ghost predicate HoldsLog(cfg: Config, n: nat, st: State, g: nat)
    requires ValidSetup(cfg, n) && Shape(cfg, st.store) && Sizes(n, st) && IsGroup(cfg, g)
  {
    var w := OwnerOf(cfg, n, g);
    var mine, k := Mine(cfg, n, st.log, w), Completed(n, st, w);
    && k <= |mine|
    && GroupRefines(cfg, st.store, SpecRun(mine[..k]), g)
    && forall p :: 0 <= p <= |st.log| && |Mine(cfg, n, st.log[..p], w)| == k ==>
         GroupRefines(cfg, st.store, SpecRun(st.log[..p]), g)
  }

  /** What holds of every reachable state. */
  ghost predicate Correct(cfg: Config, n: nat, st: State)
    requires ValidSetup(cfg, n)
  {
    && Shape(cfg, st.store) && Sizes(n, st)
    // each worker's answers are, in order, those of running the whole log on one plain map
    && (forall w: nat :: w < n ==> st.answers[w] <= OnlyOf(cfg, n, SpecAnswers(cfg.maxBuf, st.log), w))
    // a worker that has stopped has answered exactly what was queued before its quit
    && (forall w: nat :: w < n && st.pcs[w].Stopped? ==> st.quitAt[w] == Some(|st.answers[w]|))
    // no root check has failed outside groups with a misaligned APPEND, hence none without mac_opt
    && st.failed <= st.tainted && (!cfg.macOpt ==> st.failed == {})
    // every group that is not between a write and its rebuild has sound buckets that hold the log,
    // and without a misaligned APPEND it is authenticated by its root
    && (forall g: nat :: IsGroup(cfg, g) && !Unsettled(cfg, st.pcs[OwnerOf(cfg, n, g)], g) ==>
          && BucketsOk(cfg, st.store, g) && HoldsLog(cfg, n, st, g)
          && (g !in st.tainted ==> GroupIntact(cfg, st.store, g)))
  }

  /** The share of a worker grows with the log. */
  lemma {:induction false} MinePrefix(cfg: Config, n: nat, log: seq<Request>, p: nat, w: nat)
    requires ValidSetup(cfg, n) && p <= |log|
    ensures Mine(cfg, n, log[..p], w) <= Mine(cfg, n, log, w)
    decreases |log|
  {
    if p == |log| {
      assert log[..p] == log;
    } else {
      var front := log[..|log| - 1];
      MinePrefix(cfg, n, front, p, w);
      assert front[..p] == log[..p];
    }
  }

  /** The keys of a group are keys of its worker. */
  lemma WorkerAgreesOnGroup(cfg: Config, n: nat, m: KeyMap, m': KeyMap, g: nat)
    requires ValidSetup(cfg, n) && IsGroup(cfg, g) && AgreeFor(cfg, n, m, m', OwnerOf(cfg, n, g))
    ensures SameOnGroup(cfg, m', m, g)
  {
    forall k | InGroup(cfg, g, BinOf(cfg, k)) ensures (k in m <==> k in m') && (k in m ==> m[k] == m'[k]) {
      GroupOwner(cfg, n, g, BinOf(cfg, k));
    }
  }

  lemma SettledHoldsLog(cfg: Config, n: nat, st: State, g: nat)
    requires Inv(cfg, n, st) && IsGroup(cfg, g) && !Unsettled(cfg, st.pcs[OwnerOf(cfg, n, g)], g)
    ensures BucketsOk(cfg, st.store, g) && HoldsLog(cfg, n, st, g)
    ensures g !in st.tainted ==> GroupIntact(cfg, st.store, g)
  {
    var w := OwnerOf(cfg, n, g);
    var mine, k := Mine(cfg, n, st.log, w), Completed(n, st, w);
    assert GroupInv(cfg, n, st, g) && WorkerInv(cfg, n, st, w);
    var l := LocalOf(cfg, n, st, w);
    assert LocalOk(cfg.maxBuf, l) && k == Effects(l) <= |mine|;
    hide Inv, GroupInv, WorkerInv, BucketsOk, GroupRefines, GroupIntact, AgreeFor, SpecRun;
    forall p | 0 <= p <= |st.log| && |Mine(cfg, n, st.log[..p], w)| == k
      ensures GroupRefines(cfg, st.store, SpecRun(st.log[..p]), g)
    {
      var log := st.log[..p];
      MinePrefix(cfg, n, st.log, p, w);
      assert Mine(cfg, n, log, w) == mine[..k];
      LocalRunAgrees(cfg, n, log, w);
      WorkerAgreesOnGroup(cfg, n, SpecRun(log), SpecRun(mine[..k]), g);
      RefinesSame(cfg, st.store, SpecRun(mine[..k]), SpecRun(log), g);
    }
  }

  lemma InvIsCorrect(cfg: Config, n: nat, st: State)
    requires Inv(cfg, n, st)
    ensures Correct(cfg, n, st)
  {
    hide HoldsLog;
    forall w: nat | w < n
      ensures st.answers[w] <= OnlyOf(cfg, n, SpecAnswers(cfg.maxBuf, st.log), w)
      ensures st.pcs[w].Stopped? ==> st.quitAt[w] == Some(|st.answers[w]|)
    {
      assert WorkerInv(cfg, n, st, w);
      LocalAnswersAgree(cfg, n, st.log, w);
      AnswersPrefix(cfg.maxBuf, Mine(cfg, n, st.log, w), |st.answers[w]|);
    }
    forall g: nat | IsGroup(cfg, g) && !Unsettled(cfg, st.pcs[OwnerOf(cfg, n, g)], g)
      ensures BucketsOk(cfg, st.store, g) && HoldsLog(cfg, n, st, g)
      ensures g !in st.tainted ==> GroupIntact(cfg, st.store, g)
    {
      SettledHoldsLog(cfg, n, st, g);
    }
  }

  /** Every state of every run from the empty table is correct. */
  lemma EveryRunCorrect(cfg: Config, n: nat, s: Store, run: seq<State>, steps: seq<Step>, i: nat)
    requires ValidSetup(cfg, n) && EmptyStore(cfg, s)
    requires IsRun(cfg, n, run, steps) && run[0] == Init(n, s) && i < |run|
    ensures Correct(cfg, n, run[i])
  {
    InitInv(cfg, n, s);
    RunInv(cfg, n, run, steps, i);
    InvIsCorrect(cfg, n, run[i]);
  }

  /**
   * In every reachable state the table accesses of each worker are in range: after a search the
   * write is blocked by nothing but a full MAC buffer, and after a write the rebuild by nothing.
   */
  lemma EveryRunInBounds(cfg: Config, n: nat, s: Store, run: seq<State>, steps: seq<Step>, i: nat, w: nat)
    requires ValidSetup(cfg, n) && EmptyStore(cfg, s)
    requires IsRun(cfg, n, run, steps) && run[0] == Init(n, s) && i < |run| && w < n
    ensures Shape(cfg, run[i].store) && Sizes(n, run[i])
    ensures run[i].pcs[w].Written? ==> Enabled(cfg, n, run[i], Root(w))
    ensures var pc := run[i].pcs[w];
            pc.Searched? && (pc.req.op == Set || (pc.req.op == Append && pc.found)) ==>
              (WriteEnabled(cfg, run[i].store, pc) <==> Room(cfg, run[i].store, pc.req.key))
  {
    InitInv(cfg, n, s);
    RunInv(cfg, n, run, steps, i);
    if run[i].pcs[w].Written? {
      RootSettles(cfg, n, run[i], w);
    } else if run[i].pcs[w].Searched? {
      SearchTruth(cfg, n, run[i], w);
    }
  }

  /**
   * The root was right in the table the worker searched, as its rebuild takes that table to have
   * been: with the mirror slot of an overwritten entry made true, or with an APPEND undone.
   */
  ghost predicate WasRight(cfg: Config, pc: Pc)
    requires ValidConfig(cfg) && pc.Written? && Shape(cfg, pc.pre)
    requires pc.req.op == Append ==> pc.pos < |pc.pre.chains[BinOfRequest(cfg, pc.req)]|
  {
    var b := BinOfRequest(cfg, pc.req);
    var before := if pc.req.op == Append
                  then AppendUndone(cfg, pc.pre, b, AppendEntry(cfg, pc.pre.chains[b][pc.pos], pc.req.key, pc.req.val), pc.pos)
                  else Repaired(cfg, pc.pre, b, pc.pos);
    RootOk(cfg, before, GroupOf(cfg, b))
  }

  lemma WrittenDecides(cfg: Config, st: State, pc: Pc, m: KeyMap)
    requires ValidConfig(cfg) && Shape(cfg, st.store) && pc.Written? && NulFree(pc.req.key)
    requires WrittenOk(cfg, st, pc, m)
    ensures var (b, g) := (BinOfRequest(cfg, pc.req), GroupOfRequest(cfg, pc.req));
            && (pc.req.op == Append ==> pc.pos < |pc.pre.chains[b]|)
            && 0 <= RebuildIndex(cfg, st.store, b, pc.pos, pc.isInsert) < |GroupAgg(cfg, st.store, g)|
            && (Rebuild(cfg, st.store, b, pc.pos, pc.isInsert, pc.prev).ok <==> WasRight(cfg, pc))
  {
    var b, g, s := BinOfRequest(cfg, pc.req), GroupOfRequest(cfg, pc.req), pc.pre;
    assert InGroup(cfg, g, b);
    assert BucketOk(cfg, s, b);
    hide BucketsOk, GroupRefines, GroupIntact, BucketOk, Rebuild, RebuildIndex, GroupAgg, RootOk;
    if pc.req.op == Set {
      SetCheckIff(cfg, s, b, Seal(cfg.cipher, pc.req.key, pc.req.val, SetNac(cfg, s, b, pc.pos, pc.rand)), pc.pos, pc.prev);
    } else {
      AppendDecides(cfg, s, b, AppendEntry(cfg, s.chains[b][pc.pos], pc.req.key, pc.req.val), pc.pos);
    }
    RebuildLocal(cfg, st.store, WriteTable(cfg, s, pc.req, pc.pos, pc.rand), b, pc.pos, pc.isInsert, pc.prev);
  }

  /**
   * In every run a rebuild reports failure if and only if the root was not right in the table its
   * worker searched, and a GET if and only if the root is not right in the table it reads.
   */
  lemma EveryRunChecks(cfg: Config, n: nat, s: Store, run: seq<State>, steps: seq<Step>, i: nat, w: nat)
    requires ValidSetup(cfg, n) && EmptyStore(cfg, s)
    requires IsRun(cfg, n, run, steps) && run[0] == Init(n, s) && i < |steps| && w < n
    requires steps[i] == Root(w) || steps[i] == Check(w)
    ensures var (st, pc) := (run[i], run[i].pcs[w]);
            var g := GroupOfRequest(cfg, pc.req);
            && (steps[i].Root? ==>
                  && Shape(cfg, pc.pre)
                  && (pc.req.op == Append ==> pc.pos < |pc.pre.chains[BinOfRequest(cfg, pc.req)]|)
                  && run[i + 1].failed == (if WasRight(cfg, pc) then st.failed else st.failed + {g}))
            && (steps[i].Check? ==>
                  run[i + 1].failed ==
                  (if RootVerifies(cfg, st.store, BinOfRequest(cfg, pc.req)) then st.failed else st.failed + {g}))
  {
    InitInv(cfg, n, s);
    RunInv(cfg, n, run, steps, i);
    hide Inv, EmptyStore, WasRight, RootVerifies, Rebuild, RootEnabled;
    assert Enabled(cfg, n, run[i], steps[i]) && run[i + 1] == Next(cfg, n, run[i], steps[i]);
    if steps[i].Root? {
      RootReports(cfg, n, run[i], w);
    }
  }

  lemma RootReports(cfg: Config, n: nat, st: State, w: nat)
    requires Inv(cfg, n, st) && w < n && st.pcs[w].Written?
    ensures var pc := st.pcs[w];
            var b := BinOfRequest(cfg, pc.req);
            && Shape(cfg, pc.pre) && (pc.req.op == Append ==> pc.pos < |pc.pre.chains[b]|)
            && RootEnabled(cfg, st.store, pc)
            && (Rebuild(cfg, st.store, b, pc.pos, pc.isInsert, pc.prev).ok <==> WasRight(cfg, pc))
  {
    WrittenNow(cfg, n, st, w);
    hide *;
    WrittenDecides(cfg, st, st.pcs[w], MapOf(LocalOf(cfg, n, st, w)));
    RootEnabledIs(cfg, st.store, st.pcs[w]);
  }

  lemma RootEnabledIs(cfg: Config, store: Store, pc: Pc)
    requires ValidConfig(cfg) && Shape(cfg, store) && pc.Written?
    ensures RootEnabled(cfg, store, pc) <==>
            0 <= RebuildIndex(cfg, store, BinOfRequest(cfg, pc.req), pc.pos, pc.isInsert)
              < |GroupAgg(cfg, store, GroupOfRequest(cfg, pc.req))|
  {
  }

  lemma WrittenNow(cfg: Config, n: nat, st: State, w: nat)
    requires Inv(cfg, n, st) && w < n && st.pcs[w].Written?
    ensures Basic(cfg, n, st) && ValidConfig(cfg) && Shape(cfg, st.store)
    ensures var pc := st.pcs[w];
            && NulFree(pc.req.key) && WrittenOk(cfg, st, pc, MapOf(LocalOf(cfg, n, st, w)))
            && Shape(cfg, pc.pre) && BinOfRequest(cfg, pc.req) < |pc.pre.chains|
  {
    hide MapOf, SearchPos, Room, GroupIntact, GroupRefines, BucketsOk, WriteTable, SameGroup;
    WorkerAt(cfg, n, st, w);
    hide Inv;
    FrontServable(cfg, n, st, w, st.pcs[w].req);
  }

  ghost predicate CanStep(cfg: Config, n: nat, st: State, w: nat)
    requires ValidSetup(cfg, n) && Shape(cfg, st.store) && Sizes(n, st)
  {
    exists step :: StepOf(step) == Some(w) && Enabled(cfg, n, st, step)
  }

  /** The worker a step belongs to, if any. */
  function StepOf(step: Step): Option<nat> {
    match step
    case Dispatch(_) => None
    case StartQuit => None
    case PushQuit => None
    case Take(w) => Some(w)
    case Search(w) => Some(w)
    case Write(w, _, _) => Some(w)
    case Root(w) => Some(w)
    case Miss(w) => Some(w)
    case Check(w) => Some(w)
    case Return(w) => Some(w)
    case Pop(w) => Some(w)
    case Stop(w) => Some(w)
  }

  /** A request that does not fit its buffers: a key for a full MAC buffer, or a value too long for a reply. */
  ghost predicate DoesNotFit(cfg: Config, store: Store, req: Request, m: KeyMap)
    requires ValidConfig(cfg) && Shape(cfg, store)
  {
    if req.op == Get then req.key in m && cfg.maxBuf <= |m[req.key]| else req.op == Set && !Room(cfg, store, req.key)
  }

  /** What a worker in the middle of a job knows: a search found the key just when the plain map m has it. */
  ghost predicate PcFacts(cfg: Config, store: Store, pc: Pc, queue: seq<Job>, m: KeyMap)
    requires ValidConfig(cfg) && Shape(cfg, store)
  {
    && (pc.Searched? ==> Located(cfg, store, pc, m))
    && (pc.Written? ==> RootEnabled(cfg, store, pc))
    && (pc.Popping? || pc.Quitting? ==> queue != [])
  }

  predicate Located(cfg: Config, store: Store, pc: Pc, m: KeyMap)
    requires ValidConfig(cfg) && Shape(cfg, store) && pc.Searched?
  {
    var chain := store.chains[BinOfRequest(cfg, pc.req)];
    && pc.pos == Find(cfg.cipher, chain, pc.req.key) <= |chain|
    && (pc.found <==> pc.pos < |chain|) && (pc.found <==> pc.req.key in m)
    && (pc.found ==> ValIn(cfg.cipher, chain[pc.pos]) == m[pc.req.key])
  }

  lemma KnownPc(cfg: Config, n: nat, st: State, w: nat)
    requires Inv(cfg, n, st) && w < n
    ensures PcFacts(cfg, st.store, st.pcs[w], st.queues[w], MapOf(LocalOf(cfg, n, st, w)))
  {
    hide MapOf, RootEnabled;
    if st.pcs[w].Searched? {
      hide Inv;
      SearchTruth(cfg, n, st, w);
    } else if st.pcs[w].Written? {
      hide Inv;
      RootSettles(cfg, n, st, w);
    } else {
      WorkerAt(cfg, n, st, w);
      hide Inv;
    }
  }

  lemma SearchedMoves(cfg: Config, n: nat, st: State, w: nat, m: KeyMap)
    requires ValidSetup(cfg, n) && Shape(cfg, st.store) && Sizes(n, st) && w < n && st.pcs[w].Searched?
    requires Located(cfg, st.store, st.pcs[w], m)
    ensures CanStep(cfg, n, st, w) <==> !DoesNotFit(cfg, st.store, st.pcs[w].req, m)
  {
    hide Find, Shape;
    var pc, nac: Nac := st.pcs[w], seq(16, _ => 0);
    if DoesNotFit(cfg, st.store, pc.req, m) {
      forall step | StepOf(step) == Some(w) ensures !Enabled(cfg, n, st, step) {
      }
    }
    if pc.req.op != Set && !pc.found {
      assert Enabled(cfg, n, st, Miss(w)) && StepOf(Miss(w)) == Some(w);
    } else if pc.req.op == Get {
      assert StepOf(Check(w)) == Some(w);
    } else {
      assert StepOf(Write(w, nac, nac)) == Some(w);
    }
  }

  lemma OtherMoves(cfg: Config, n: nat, st: State, w: nat, m: KeyMap)
    requires ValidSetup(cfg, n) && Shape(cfg, st.store) && Sizes(n, st) && w < n
    requires PcFacts(cfg, st.store, st.pcs[w], st.queues[w], m)
    requires !st.pcs[w].Searched? && !st.pcs[w].Stopped? && (st.pcs[w].Idle? ==> st.queues[w] != [])
    ensures CanStep(cfg, n, st, w)
  {
    hide ValidSetup, Shape, RootEnabled;
    match st.pcs[w]
    case Idle => assert Enabled(cfg, n, st, Take(w)) && StepOf(Take(w)) == Some(w);
    case Serving(_) => assert Enabled(cfg, n, st, Search(w)) && StepOf(Search(w)) == Some(w);
    case Written(_, _, _, _, _, _) => assert Enabled(cfg, n, st, Root(w)) && StepOf(Root(w)) == Some(w);
    case Answering(_, _) => assert Enabled(cfg, n, st, Return(w)) && StepOf(Return(w)) == Some(w);
    case Popping(_) => assert Enabled(cfg, n, st, Pop(w)) && StepOf(Pop(w)) == Some(w);
    case Quitting => assert Enabled(cfg, n, st, Stop(w)) && StepOf(Stop(w)) == Some(w);
  }

  /**
   * In every reachable state a worker that has something to do can take a step: one with a job in
   * its queue, and one in the middle of a job. After a search it can just when the request fits the buffers.
   */
  lemma WorkersNeverStuck(cfg: Config, n: nat, s: Store, run: seq<State>, steps: seq<Step>, i: nat, w: nat)
    requires ValidSetup(cfg, n) && EmptyStore(cfg, s)
    requires IsRun(cfg, n, run, steps) && run[0] == Init(n, s) && i < |run| && w < n
    ensures Basic(cfg, n, run[i])
    ensures var (st, pc) := (run[i], run[i].pcs[w]);
            if pc.Searched?
            then CanStep(cfg, n, st, w) <==> !DoesNotFit(cfg, st.store, pc.req, MapOf(LocalOf(cfg, n, st, w)))
            else CanStep(cfg, n, st, w) || pc.Stopped? || (pc.Idle? && st.queues[w] == [])
  {
    hide Inv, Enabled, EmptyStore, ValidSetup, IsRun, DoesNotFit, MapOf, CanStep, Located, LocalOf;
    InitInv(cfg, n, s);
    RunInv(cfg, n, run, steps, i);
    WorkerAt(cfg, n, run[i], w);
    KnownPc(cfg, n, run[i], w);
    var st, pc, m := run[i], run[i].pcs[w], MapOf(LocalOf(cfg, n, run[i], w));
    if pc.Searched? {
      SearchedMoves(cfg, n, st, w, m);
    } else if !pc.Stopped? && (pc.Idle? ==> st.queues[w] != []) {
      OtherMoves(cfg, n, st, w, m);
    }
  }

  /** While quits are being sent, the workers before the next one have theirs; afterwards all have. */
  ghost predicate QuitsSent(n: nat, st: State) {
    && Sizes(n, st)
    && ((forall w: nat :: w < n ==> st.quitAt[w].Some?) ||
        forall w: nat :: w < n ==> (st.quitAt[w].Some? <==> st.dispatcher.SendingQuit? && w < st.dispatcher.next))
  }

  lemma {:induction false} RunQuits(cfg: Config, n: nat, s: Store, run: seq<State>, steps: seq<Step>, i: nat)
    requires ValidSetup(cfg, n) && EmptyStore(cfg, s)
    requires IsRun(cfg, n, run, steps) && run[0] == Init(n, s) && i < |run|
    ensures QuitsSent(n, run[i])
  {
    if i != 0 {
      RunQuits(cfg, n, s, run, steps, i - 1);
      InitInv(cfg, n, s);
      RunInv(cfg, n, run, steps, i - 1);
      QuitStep(cfg, n, run[i - 1], steps[i - 1]);
    }
  }

  lemma QuitStep(cfg: Config, n: nat, st: State, step: Step)
    requires Inv(cfg, n, st) && Enabled(cfg, n, st, step) && QuitsSent(n, st)
    ensures QuitsSent(n, Next(cfg, n, st, step))
  {
    hide WorkerInv, GroupInv, WriteTable, Rebuild, RootEnabled, WriteEnabled, CheckEnabled;
  }

  /** Once the dispatcher is done with quitting, every worker has a quit in its queue or has stopped at one; none was left out. */
  lemma QuitReachesAll(cfg: Config, n: nat, s: Store, run: seq<State>, steps: seq<Step>, m: nat, i: nat, w: nat)
    requires ValidSetup(cfg, n) && EmptyStore(cfg, s)
    requires IsRun(cfg, n, run, steps) && run[0] == Init(n, s) && m < i < |run| && w < n
    requires steps[m].PushQuit? && run[i].dispatcher.Ready?
    ensures Sizes(n, run[i]) && run[i].quitAt[w].Some?
    ensures run[i].pcs[w].Stopped? || Quit in run[i].queues[w]
  {
    QuitStays(cfg, n, s, run, steps, m, i);
    RunQuits(cfg, n, s, run, steps, i);
    InitInv(cfg, n, s);
    RunInv(cfg, n, run, steps, i);
    WorkerAt(cfg, n, run[i], w);
    var l := LocalOf(cfg, n, run[i], w);
    if !l.pc.Stopped? {
      assert l.queue[BeforeQuit(l.queue)].Quit?;
    }
  }

  /** A quit that was sent is not forgotten. */
  lemma {:induction false} QuitStays(cfg: Config, n: nat, s: Store, run: seq<State>, steps: seq<Step>, m: nat, i: nat)
    requires ValidSetup(cfg, n) && EmptyStore(cfg, s)
    requires IsRun(cfg, n, run, steps) && run[0] == Init(n, s) && m < i < |run| && steps[m].PushQuit?
    ensures Sizes(n, run[i]) && exists w: nat :: w < n && run[i].quitAt[w].Some?
    decreases i
  {
    hide Inv, Enabled, Next, EmptyStore, ValidSetup, Init;
    InitInv(cfg, n, s);
    RunInv(cfg, n, run, steps, i - 1);
    var st := run[i - 1];
    var w: nat;
    if i == m + 1 {
      w := FirstQuit(cfg, n, st);
    } else {
      QuitStays(cfg, n, s, run, steps, m, i - 1);
      w :| w < n && st.quitAt[w].Some?;
      SameQuit(cfg, n, st, steps[i - 1], w);
    }
    assert run[i].quitAt[w].Some?;
  }

  lemma FirstQuit(cfg: Config, n: nat, st: State) returns (w: nat)
    requires Inv(cfg, n, st) && Enabled(cfg, n, st, PushQuit)
    ensures w < n && Sizes(n, Next(cfg, n, st, PushQuit)) && Next(cfg, n, st, PushQuit).quitAt[w].Some?
  {
    w := st.dispatcher.next;
  }

  lemma SameQuit(cfg: Config, n: nat, st: State, step: Step, w: nat)
    requires Inv(cfg, n, st) && Enabled(cfg, n, st, step) && w < n && st.quitAt[w].Some?
    ensures Sizes(n, Next(cfg, n, st, step)) && Next(cfg, n, st, step).quitAt[w].Some?
  {
    hide WorkerInv, GroupInv, WriteTable, Rebuild, RootEnabled, WriteEnabled, CheckEnabled;
  }

  /** Requests of different workers touch no common bucket, MAC buffer or root. */
  lemma FootprintsDisjoint(cfg: Config, n: nat, r: Request, r': Request)
    requires ValidSetup(cfg, n) && Route(cfg, n, r) != Route(cfg, n, r')
    ensures BinOfRequest(cfg, r) != BinOfRequest(cfg, r')
    ensures GroupOfRequest(cfg, r) != GroupOfRequest(cfg, r')
  {
    RequestOwner(cfg, n, r);
    RequestOwner(cfg, n, r');
  }
}
