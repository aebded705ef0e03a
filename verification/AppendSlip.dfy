/**
 * A run in which the root check fails with nobody tampering: under mac_opt, SET a, SET b and
 * APPEND b on a table of one bucket.
 */
module AppendSlip {
  import opened Bytes
  import opened Crypto
  import opened Table
  import opened TableProofs
  import opened Requests
  import opened Workers
  import opened WorkersProofs

  // ---------------------------------------------------------------- reachable states

  ghost predicate Reachable(cfg: Config, n: nat, s: Store, st: State)
    requires ValidSetup(cfg, n)
  {
    exists run, steps :: IsRun(cfg, n, run, steps) && run[0] == Init(n, s) && run[|steps|] == st
  }

  lemma Start(cfg: Config, n: nat, s: Store)
    requires ValidSetup(cfg, n)
    ensures Reachable(cfg, n, s, Init(n, s))
  {
    assert IsRun(cfg, n, [Init(n, s)], []);
  }

  lemma ReachableInv(cfg: Config, n: nat, s: Store, st: State)
    requires ValidSetup(cfg, n) && EmptyStore(cfg, s) && Reachable(cfg, n, s, st)
    ensures Inv(cfg, n, st)
  {
    hide Inv, ValidSetup, EmptyStore, Init;
    var run, steps :| IsRun(cfg, n, run, steps) && run[0] == Init(n, s) && run[|steps|] == st;
    InitInv(cfg, n, s);
    RunInv(cfg, n, run, steps, |steps|);
  }

  lemma Advance(cfg: Config, n: nat, s: Store, st: State, step: Step)
    requires ValidSetup(cfg, n) && EmptyStore(cfg, s) && Reachable(cfg, n, s, st)
    requires Shape(cfg, st.store) && Sizes(n, st) && Enabled(cfg, n, st, step)
    ensures Reachable(cfg, n, s, Next(cfg, n, st, step)) && Inv(cfg, n, Next(cfg, n, st, step))
    ensures Shape(cfg, Next(cfg, n, st, step).store) && Sizes(n, Next(cfg, n, st, step))
  {
    hide Inv, ValidSetup, EmptyStore, Init, Shape, Sizes, Enabled, Next;
    var run, steps :| IsRun(cfg, n, run, steps) && run[0] == Init(n, s) && run[|steps|] == st;
    var st' := Next(cfg, n, st, step);
    LongerRun(cfg, n, run, steps, step, st');
    ReachableInv(cfg, n, s, st');
    InvShape(cfg, n, st');
  }

  lemma LongerRun(cfg: Config, n: nat, run: seq<State>, steps: seq<Step>, step: Step, st: State)
    requires ValidSetup(cfg, n) && IsRun(cfg, n, run, steps)
    requires Shape(cfg, run[|steps|].store) && Sizes(n, run[|steps|])
    requires Enabled(cfg, n, run[|steps|], step) && st == Next(cfg, n, run[|steps|], step)
    ensures IsRun(cfg, n, run + [st], steps + [step])
    ensures (run + [st])[0] == run[0] && (run + [st])[|steps + [step]|] == st
  {
    hide ValidSetup, Shape, Sizes, Enabled, Next;
    var run', steps' := run + [st], steps + [step];
    forall i | 0 <= i < |steps'|
      ensures Shape(cfg, run'[i].store) && Sizes(n, run'[i])
      ensures Enabled(cfg, n, run'[i], steps'[i]) && run'[i + 1] == Next(cfg, n, run'[i], steps'[i])
    {
      if i < |steps| {
        assert run'[i] == run[i] && run'[i + 1] == run[i + 1] && steps'[i] == steps[i];
      } else {
        assert run'[i] == run[|steps|] && run'[i + 1] == st && steps'[i] == step;
      }
    }
  }

  lemma InvShape(cfg: Config, n: nat, st: State)
    requires Inv(cfg, n, st)
    ensures Shape(cfg, st.store) && Sizes(n, st)
  {
  }

  // ---------------------------------------------------------------- serving one request

  /** Where the search for the key of a request stops in the table of a state. */
  function StopsAt(cfg: Config, st: State, req: Request): (pos: nat)
    requires 0 < cfg.size && Shape(cfg, st.store)
    ensures pos <= |st.store.chains[BinOfRequest(cfg, req)]|
  {
    SearchIn(cfg, st.store.chains[BinOfRequest(cfg, req)], req.key)
  }

  function AfterSearch(cfg: Config, st: State, req: Request): Pc
    requires 0 < cfg.size && Shape(cfg, st.store)
  {
    var pos := StopsAt(cfg, st, req);
    Searched(req, pos, pos < |st.store.chains[BinOfRequest(cfg, req)]|)
  }

  /** An idle worker w has req at the front of its queue and will be able to write it. */
  ghost predicate CanWrite(cfg: Config, n: nat, s: Store, st: State, w: nat, req: Request)
    requires ValidSetup(cfg, n)
  {
    && EmptyStore(cfg, s) && Reachable(cfg, n, s, st) && Shape(cfg, st.store) && Sizes(n, st)
    && w < n && st.pcs[w].Idle? && st.queues[w] != [] && st.queues[w][0] == Serve(req)
    && WriteEnabled(cfg, st.store, AfterSearch(cfg, st, req))
  }

  /** Take, search and write: the states in between are reachable and nothing else moves. */
  lemma ToWritten(cfg: Config, n: nat, s: Store, st: State, w: nat, req: Request, rand: Nac, junk: Mac)
    returns (st': State)
    requires ValidSetup(cfg, n) && CanWrite(cfg, n, s, st, w, req)
    ensures Reachable(cfg, n, s, st') && Inv(cfg, n, st') && Enabled(cfg, n, st', Root(w))
    ensures var pos, chain := StopsAt(cfg, st, req), st.store.chains[BinOfRequest(cfg, req)];
            && st'.store == WriteTable(cfg, st.store, req, pos, rand)
            && st'.pcs == st.pcs[w := Written(req, pos, pos == |chain|,
                                              PrevMac(st.store, BinOfRequest(cfg, req), pos, junk), st.store, rand)]
            && st'.tainted == (if Misaligned(cfg, req.op, pos, chain)
                               then st.tainted + {GroupOfRequest(cfg, req)} else st.tainted)
    ensures st'.log == st.log && st'.queues == st.queues && st'.failed == st.failed
  {
    hide Reachable, Inv, EmptyStore, WriteTable, RootEnabled;
    Advance(cfg, n, s, st, Take(w));
    var st1 := Next(cfg, n, st, Take(w));
    Advance(cfg, n, s, st1, Search(w));
    var st2 := Next(cfg, n, st1, Search(w));
    assert st2.pcs[w] == AfterSearch(cfg, st, req);
    Advance(cfg, n, s, st2, Write(w, rand, junk));
    st' := Next(cfg, n, st2, Write(w, rand, junk));
    RootEnabledAt(cfg, n, st', w);
  }

  lemma RootEnabledAt(cfg: Config, n: nat, st: State, w: nat)
    requires Inv(cfg, n, st) && w < n && st.pcs[w].Written?
    ensures Enabled(cfg, n, st, Root(w))
  {
    RootSettles(cfg, n, st, w);
  }

  /** The rebuild step touches roots and the history of failures only. */
  lemma RootOnly(cfg: Config, n: nat, st: State, w: nat)
    requires ValidSetup(cfg, n) && Shape(cfg, st.store) && Sizes(n, st) && Enabled(cfg, n, st, Root(w))
    ensures var st' := Next(cfg, n, st, Root(w));
            && st'.store.chains == st.store.chains && st'.store.bufs == st.store.bufs
            && st'.log == st.log && st'.tainted == st.tainted && st'.queues == st.queues
            && st'.pcs == st.pcs[w := Answering(st.pcs[w].req, ValueReply(st.pcs[w].req.key, cfg.maxBuf))]
  {
  }

  /** Rebuild, answer and pop. */
  lemma ToIdle(cfg: Config, n: nat, s: Store, st: State, w: nat) returns (st': State)
    requires ValidSetup(cfg, n) && EmptyStore(cfg, s) && Reachable(cfg, n, s, st)
    requires Shape(cfg, st.store) && Sizes(n, st) && Enabled(cfg, n, st, Root(w)) && st.queues[w] != []
    ensures Reachable(cfg, n, s, st') && Inv(cfg, n, st') && Shape(cfg, st'.store) && Sizes(n, st')
    ensures st'.store.chains == st.store.chains && st'.store.bufs == st.store.bufs
    ensures st'.log == st.log && st'.tainted == st.tainted
    ensures st'.queues == st.queues[w := st.queues[w][1..]] && st'.pcs == st.pcs[w := Idle]
  {
    RootOnly(cfg, n, st, w);
    hide Reachable, Inv, EmptyStore, ValidSetup, Shape, Enabled, Next;
    Advance(cfg, n, s, st, Root(w));
    st' := AnswerAndPop(cfg, n, s, Next(cfg, n, st, Root(w)), w);
  }

  lemma AnswerAndPop(cfg: Config, n: nat, s: Store, st: State, w: nat) returns (st': State)
    requires ValidSetup(cfg, n) && EmptyStore(cfg, s) && Reachable(cfg, n, s, st)
    requires Shape(cfg, st.store) && Sizes(n, st) && w < n && st.pcs[w].Answering? && st.queues[w] != []
    ensures Reachable(cfg, n, s, st') && Inv(cfg, n, st') && Shape(cfg, st'.store) && Sizes(n, st')
    ensures st'.store == st.store && st'.log == st.log && st'.tainted == st.tainted
    ensures st'.queues == st.queues[w := st.queues[w][1..]] && st'.pcs == st.pcs[w := Idle]
  {
    hide Reachable, Inv, EmptyStore, ValidSetup, Shape;
    Advance(cfg, n, s, st, Return(w));
    var st1 := Next(cfg, n, st, Return(w));
    Advance(cfg, n, s, st1, Pop(w));
    st' := Next(cfg, n, st1, Pop(w));
  }

  // ---------------------------------------------------------------- the run

  /** A lawful cipher that hides nothing, with the first block of its input for a MAC. */
  const ECHO: Cipher := Cipher((p, n) => p, (p, n) => p, (n, k) => n, FirstBlock)

  /** One bucket, one root, one worker, buffers of 16 bytes, mac_opt on. */
  const ONE_BUCKET: Config := Config(1, 1, 16, false, true, ECHO)

  function FirstBlock(s: seq<byte>): (m: Mac)
    ensures forall i :: 0 <= i < 16 && i < |s| ==> m[i] == s[i]
  {
    if |s| < BLOCK then Padded(s, BLOCK) else s[..BLOCK]
  }

  const A: seq<byte> := [97]
  const B: seq<byte> := [98]

  function Line(op: Op, key: seq<byte>): (buf: seq<byte>)
    requires |key| == 1
    ensures |buf| == 16
  {
    Padded(Format(op, key, A), 16)
  }

  lemma OneBucketOk()
    ensures ValidSetup(ONE_BUCKET, 1) && IsGroup(ONE_BUCKET, 0)
    ensures Lo(ONE_BUCKET, 0) == 0 && Hi(ONE_BUCKET, 0) == 1
    ensures forall key :: BinOf(ONE_BUCKET, key) == 0
  {
  }

  /** The three requests, once they are in the queue of the one worker. */
  function Sent(): seq<Request> {
    [Parse(Line(Set, A)), Parse(Line(Set, B)), Parse(Line(Append, B))]
  }

  lemma OneSent(op: Op, key: seq<byte>)
    requires key == A || key == B
    ensures WellFormed(Line(op, key), 16) && Parse(Line(op, key)).op == op && Parse(Line(op, key)).key == key
  {
    hide Parse, WellFormed, Padded;
    ParseFormat(op, key, A, 16);
  }

  lemma SentIs()
    ensures WellFormed(Line(Set, A), 16) && WellFormed(Line(Set, B), 16) && WellFormed(Line(Append, B), 16)
    ensures Sent()[0].op == Set && Sent()[0].key == A
    ensures Sent()[1].op == Set && Sent()[1].key == B
    ensures Sent()[2].op == Append && Sent()[2].key == B
  {
    hide Parse, WellFormed, Line;
    OneSent(Set, A);
    OneSent(Set, B);
    OneSent(Append, B);
  }

  lemma {:induction false} FlatHead(ms: seq<Mac>)
    requires ms != []
    ensures FirstBlock(Flat(ms)) == ms[0]
  {
    var front, last := ms[..|ms| - 1], ms[|ms| - 1];
    if front == [] {
      assert Flat(front) == [] && Flat(ms) == last;
    } else {
      FlatHead(front);
      assert Flat(ms)[..BLOCK] == Flat(front)[..BLOCK];
    }
  }

  /** The MAC of a sealed entry starts with its key. */
  lemma SealHead(key: seq<byte>, val: seq<byte>, nac: Nac)
    requires |key| == 1
    ensures Seal(ECHO, key, val, nac).mac[0] == key[0]
  {
    var kv := key + [NUL] + val + [NUL];
    assert ECHO.encrypt(kv, nac) == kv && kv[0] == key[0];
  }

  /** APPEND to the first of two entries, in an intact table: the rebuild sees another aggregate. */
  lemma SlipFails(s: Store, e: Entry)
    requires ValidSetup(ONE_BUCKET, 1) && Shape(ONE_BUCKET, s) && IsGroup(ONE_BUCKET, 0)
    requires |s.chains[0]| == 2 && GroupIntact(ONE_BUCKET, s, 0)
    requires s.chains[0][1].mac[0] != e.mac[0]
    ensures var t := AppendAt(ONE_BUCKET, s, 0, e, 0);
            && 0 <= RebuildIndex(ONE_BUCKET, t, 0, 0, false) < |GroupAgg(ONE_BUCKET, t, 0)|
            && !Rebuild(ONE_BUCKET, t, 0, 0, false, s.chains[0][0].mac).ok
  {
    OneBucketOk();
    var t := AppendAt(ONE_BUCKET, s, 0, e, 0);
    assert InGroup(ONE_BUCKET, 0, 0);
    assert Mirrors(s.bufs[0], s.chains[0]);
    OneBucketAgg(s);
    OneBucketAgg(t);
    AppendReconstructsIff(ONE_BUCKET, s, 0, e, 0);
    var was, now := GroupAgg(ONE_BUCKET, s, 0), GroupAgg(ONE_BUCKET, t, 0);
    var back := PreviousAgg(now, RebuildIndex(ONE_BUCKET, t, 0, 0, false), false, s.chains[0][0].mac);
    assert was[0] == s.chains[0][1].mac && now[0] == e.mac && |now| == 2;
    assert RebuildIndex(ONE_BUCKET, t, 0, 0, false) == 1;
    assert back[0] == e.mac;
    FlatHead(was);
    FlatHead(back);
  }

  lemma OneBucketAgg(s: Store)
    requires ValidConfig(ONE_BUCKET) && Shape(ONE_BUCKET, s) && IsGroup(ONE_BUCKET, 0)
    ensures GroupAgg(ONE_BUCKET, s, 0) == BucketMacs(ONE_BUCKET, s, 0)
  {
    OneBucketOk();
    assert Agg(ONE_BUCKET, s, 0, 0) == [];
    assert Agg(ONE_BUCKET, s, 0, 1) == [] + BucketMacs(ONE_BUCKET, s, 0);
  }

  /** The state of the one worker between requests. */
  ghost predicate Resting(s: Store, st: State, jobs: seq<Job>)
    requires ValidSetup(ONE_BUCKET, 1)
  {
    && EmptyStore(ONE_BUCKET, s) && Reachable(ONE_BUCKET, 1, s, st)
    && Shape(ONE_BUCKET, st.store) && Sizes(1, st)
    && st.pcs == [Idle] && st.queues == [jobs] && st.log == Sent() && st.tainted == {}
  }

  lemma DispatchOne(s: Store, st: State, buf: seq<byte>) returns (st': State)
    requires ValidSetup(ONE_BUCKET, 1) && EmptyStore(ONE_BUCKET, s) && Reachable(ONE_BUCKET, 1, s, st)
    requires Shape(ONE_BUCKET, st.store) && Sizes(1, st) && st.dispatcher.Ready? && WellFormed(buf, 16)
    ensures Reachable(ONE_BUCKET, 1, s, st')
    ensures st' == st.(log := st.log + [Parse(buf)], queues := [st.queues[0] + [Serve(Parse(buf))]])
  {
    Advance(ONE_BUCKET, 1, s, st, Dispatch(buf));
    st' := Next(ONE_BUCKET, 1, st, Dispatch(buf));
    assert Route(ONE_BUCKET, 1, Parse(buf)) == 0;
    assert st'.queues == [st.queues[0] + [Serve(Parse(buf))]];
  }

  lemma AllSent(s: Store) returns (st: State)
    requires ValidSetup(ONE_BUCKET, 1) && EmptyStore(ONE_BUCKET, s)
    ensures Resting(s, st, [Serve(Sent()[0]), Serve(Sent()[1]), Serve(Sent()[2])]) && st.store == s
  {
    SentIs();
    hide Parse, WellFormed, Reachable, EmptyStore, ValidSetup, Line;
    Start(ONE_BUCKET, 1, s);
    EmptyShape(s);
    var st0 := Init(1, s);
    assert st0.queues == [[]] && st0.pcs == [Idle];
    var st1 := DispatchOne(s, st0, Line(Set, A));
    var st2 := DispatchOne(s, st1, Line(Set, B));
    st := DispatchOne(s, st2, Line(Append, B));
    assert st.log == Sent();
    assert st.queues[0] == [Serve(Sent()[0]), Serve(Sent()[1]), Serve(Sent()[2])];
  }

  lemma EmptyShape(s: Store)
    requires EmptyStore(ONE_BUCKET, s)
    ensures Shape(ONE_BUCKET, s) && s.chains == [[]]
  {
  }

  /** Serving a SET of a key that is not in the table puts its sealed entry at the head of the chain. */
  lemma SetServed(s: Store, st: State, req: Request, rest: seq<Job>, nac: Nac) returns (st': State)
    requires ValidSetup(ONE_BUCKET, 1) && Resting(s, st, [Serve(req)] + rest)
    requires req.op == Set && |st.store.chains[0]| < SLOTS
    requires Find(ECHO, st.store.chains[0], req.key) == |st.store.chains[0]|
    ensures Resting(s, st', rest)
    ensures st'.store.chains == [[Seal(ECHO, req.key, req.val, nac)] + st.store.chains[0]]
  {
    hide Inv, Reachable, EmptyStore, Find, Seal, Sent, RootEnabled, SetBuf;
    OneBucketOk();
    var jobs := [Serve(req)] + rest;
    assert st.queues[0][0] == Serve(req) && jobs[1..] == rest;
    assert BinOfRequest(ONE_BUCKET, req) == 0;
    var st1 := ToWritten(ONE_BUCKET, 1, s, st, 0, req, nac, nac);
    InvShape(ONE_BUCKET, 1, st1);
    st' := ToIdle(ONE_BUCKET, 1, s, st1, 0);
    assert st'.queues == [rest] && st'.pcs == [Idle];
  }

  /** The chain of b and a, as the two SETs leave it. */
  predicate TwoEntries(store: Store, nac: Nac) {
    store.chains == [[Seal(ECHO, B, Sent()[1].val, nac), Seal(ECHO, A, Sent()[0].val, nac)]]
  }

  /** The two SETs, and the table they leave. */
  lemma BothSet(s: Store, nac: Nac) returns (st: State)
    requires ValidSetup(ONE_BUCKET, 1) && EmptyStore(ONE_BUCKET, s)
    ensures Resting(s, st, [Serve(Sent()[2])])
    ensures TwoEntries(st.store, nac)
  {
    SentIs();
    hide Parse, Line, Resting, Seal, ValidSetup, EmptyStore;
    var st0 := AllSent(s);
    EmptyShape(s);
    var reqs := Sent();
    assert [Serve(reqs[0]), Serve(reqs[1]), Serve(reqs[2])] == [Serve(reqs[0])] + [Serve(reqs[1]), Serve(reqs[2])];
    var st1 := SetServed(s, st0, reqs[0], [Serve(reqs[1]), Serve(reqs[2])], nac);
    NotYetThere(reqs[0].val, nac);
    assert [Serve(reqs[1]), Serve(reqs[2])] == [Serve(reqs[1])] + [Serve(reqs[2])];
    st := SetServed(s, st1, reqs[1], [Serve(reqs[2])], nac);
    var ea, eb := Seal(ECHO, A, reqs[0].val, nac), Seal(ECHO, B, reqs[1].val, nac);
    assert [ea] + st0.store.chains[0] == [ea] && [eb] + [ea] == [eb, ea];
  }

  lemma NotYetThere(val: seq<byte>, nac: Nac)
    ensures Find(ECHO, [Seal(ECHO, A, val, nac)], B) == 1
  {
    var e := Seal(ECHO, A, val, nac);
    SealOpens(ECHO, A, val, nac);
    assert Sealed(ECHO, e);
    MatchesIff(ECHO, e, B);
    FindIs(ECHO, [e], B, 1);
  }

  lemma FoundFirst(val: seq<byte>, nac: Nac, rest: seq<Entry>)
    ensures Find(ECHO, [Seal(ECHO, B, val, nac)] + rest, B) == 0
  {
    var e := Seal(ECHO, B, val, nac);
    SealOpens(ECHO, B, val, nac);
    assert Sealed(ECHO, e);
    MatchesIff(ECHO, e, B);
    FindIs(ECHO, [e] + rest, B, 0);
  }

  /**
   * From any empty table there is a run of the one worker, fed SET a, SET b and APPEND b and
   * nothing else, whose last step is a rebuild that finds the root wrong.
   */
  lemma RunFails(s: Store) returns (st: State)
    requires EmptyStore(ONE_BUCKET, s)
    ensures ValidSetup(ONE_BUCKET, 1) && Reachable(ONE_BUCKET, 1, s, st)
    ensures st.failed == {0}
    ensures |st.log| == 3 && st.log[0].op == Set && st.log[1].op == Set && st.log[2].op == Append
    ensures st.log[0].key == A && st.log[1].key == st.log[2].key == B
  {
    hide Parse, Line, Inv, Reachable, EmptyStore, Seal;
    OneBucketOk();
    SentIs();
    var nac: Nac := seq(16, _ => 0);
    var st0 := BothSet(s, nac);
    st := AppendServed(s, st0, nac);
  }

  /** On the table: the search of the APPEND stops at once, and the check after its write fails. */
  lemma AppendTableFails(store: Store, nac: Nac)
    requires ValidSetup(ONE_BUCKET, 1) && Shape(ONE_BUCKET, store) && IsGroup(ONE_BUCKET, 0)
    requires TwoEntries(store, nac) && GroupIntact(ONE_BUCKET, store, 0)
    ensures var req := Sent()[2];
            && req.op == Append && SearchIn(ONE_BUCKET, store.chains[0], req.key) == 0
            && BinOfRequest(ONE_BUCKET, req) == 0
            && var t := WriteTable(ONE_BUCKET, store, req, 0, nac);
               && 0 <= RebuildIndex(ONE_BUCKET, t, 0, 0, false) < |GroupAgg(ONE_BUCKET, t, 0)|
               && !Rebuild(ONE_BUCKET, t, 0, 0, false, store.chains[0][0].mac).ok
  {
    hide Parse, Line, WellFormed;
    OneBucketOk();
    SentIs();
    var req, chain := Sent()[2], store.chains[0];
    FoundFirst(Sent()[1].val, nac, [chain[1]]);
    assert chain == [chain[0]] + [chain[1]];
    SealHead(A, Sent()[0].val, nac);
    SealHead(B, ValIn(ECHO, chain[0]) + req.val, NextNac(ECHO, chain[0]));
    SlipFails(store, AppendEntry(ONE_BUCKET, chain[0], req.key, req.val));
  }

  lemma AppendServed(s: Store, st: State, nac: Nac) returns (st': State)
    requires ValidSetup(ONE_BUCKET, 1) && IsGroup(ONE_BUCKET, 0)
    requires Resting(s, st, [Serve(Sent()[2])]) && TwoEntries(st.store, nac)
    ensures Reachable(ONE_BUCKET, 1, s, st') && st'.failed == {0} && st'.log == Sent()
  {
    hide Parse, Line, Seal, Inv, Reachable, EmptyStore, WriteTable, RebuildIndex, GroupAgg, GroupIntact, Rebuild,
         RootEnabled;
    var req := Sent()[2];
    IntactAtRest(s, st);
    AppendTableFails(st.store, nac);
    assert |st.store.chains[0]| == 2;
    var st1 := ToWritten(ONE_BUCKET, 1, s, st, 0, req, nac, nac);
    InvShape(ONE_BUCKET, 1, st1);
    st' := FailedRoot(s, st1, req);
  }

  lemma FailedRoot(s: Store, st: State, req: Request) returns (st': State)
    requires ValidSetup(ONE_BUCKET, 1) && EmptyStore(ONE_BUCKET, s) && Reachable(ONE_BUCKET, 1, s, st)
    requires Shape(ONE_BUCKET, st.store) && Sizes(1, st) && Enabled(ONE_BUCKET, 1, st, Root(0))
    requires st.failed == {} && BinOfRequest(ONE_BUCKET, req) == 0
    requires var pc := st.pcs[0]; pc.req == req && pc.pos == 0 && !pc.isInsert
    requires 0 <= RebuildIndex(ONE_BUCKET, st.store, 0, 0, false) < |GroupAgg(ONE_BUCKET, st.store, GroupOf(ONE_BUCKET, 0))|
    requires !Rebuild(ONE_BUCKET, st.store, 0, 0, false, st.pcs[0].prev).ok
    ensures Reachable(ONE_BUCKET, 1, s, st') && st'.failed == {0} && st'.log == st.log
  {
    hide Inv, Reachable, EmptyStore, RebuildIndex, GroupAgg, Rebuild;
    Advance(ONE_BUCKET, 1, s, st, Root(0));
    st' := Next(ONE_BUCKET, 1, st, Root(0));
    assert GroupOfRequest(ONE_BUCKET, req) == 0;
  }

  lemma IntactAtRest(s: Store, st: State)
    requires ValidSetup(ONE_BUCKET, 1) && Resting(s, st, [Serve(Sent()[2])]) && IsGroup(ONE_BUCKET, 0)
    ensures GroupIntact(ONE_BUCKET, st.store, 0) && st.failed == {}
  {
    ReachableInv(ONE_BUCKET, 1, s, st);
    assert GroupInv(ONE_BUCKET, 1, st, 0);
    assert OwnerOf(ONE_BUCKET, 1, 0) == 0;
  }
}
