/**
 * The CPU profile collector: samples are counted in a small hash table, entries thrown out of it
 * go through a buffer to the output, and nothing is lost on the way.
 */
module ProfileData {
  import opened Collections

  const MAX_DEPTH: nat := 64
  const ASSOCIATIVITY: nat := 4
  const BUCKETS: nat := 1024
  const BUFFER_LENGTH: nat := 262144
  const WORD: nat := 0x1_0000_0000_0000_0000

  /** A stack trace with its number of hits; the depth is the length of the stack. */
  datatype Entry = Entry(count: nat, stack: seq<nat>)

  // ---------------------------------------------------------------- the stream

  function Encode(e: Entry): seq<nat> {
    [e.count, |e.stack|] + e.stack
  }

  function EncodeAll(es: seq<Entry>): seq<nat> {
    if es == [] then [] else EncodeAll(es[..|es| - 1]) + Encode(es[|es| - 1])
  }

  function Header(period: nat): seq<nat> {
    [0, 3, 0, period, 0]
  }

  const TRAILER: seq<nat> := [0, 1, 0]

  datatype Profile = Profile(period: nat, samples: seq<Entry>, rest: seq<nat>)

  /** Reads samples up to the end marker. */
  function DecodeSamples(ws: seq<nat>): Option<(seq<Entry>, seq<nat>)> {
    if |ws| < 2 || |ws| < 2 + ws[1] then None
    else if ws[0] == 0 then (if ws[1] == 1 && ws[2] == 0 then Some(([], ws[3..])) else None)
    else
      var tail := DecodeSamples(ws[2 + ws[1]..]);
      if tail.None? then None
      else Some(([Entry(ws[0], ws[2..2 + ws[1]])] + tail.value.0, tail.value.1))
  }

  /** Reads a whole profile: header, samples, end marker, and whatever follows. */
  function Decode(ws: seq<nat>): Option<Profile> {
    if |ws| < 5 || ws[0] != 0 || ws[1] != 3 || ws[2] != 0 || ws[4] != 0 then None
    else
      var body := DecodeSamples(ws[5..]);
      if body.None? then None else Some(Profile(ws[3], body.value.0, body.value.1))
  }

  lemma EncodeFirst(e: Entry, es: seq<Entry>)
    ensures EncodeAll([e] + es) == Encode(e) + EncodeAll(es)
  {
    if es == [] {
      assert [e] + es == [e];
      assert EncodeAll([e]) == EncodeAll([]) + Encode(e);
    } else {
      var most, last := es[..|es| - 1], es[|es| - 1];
      EncodeFirst(e, most);
      assert ([e] + es)[..|es|] == [e] + most;
    }
  }

  lemma {:induction false} DecodeSamplesBack(es: seq<Entry>, rest: seq<nat>)
    requires forall i :: 0 <= i < |es| ==> 0 < es[i].count
    ensures DecodeSamples(EncodeAll(es) + TRAILER + rest) == Some((es, rest))
  {
    var ws := EncodeAll(es) + TRAILER + rest;
    if es == [] {
      assert ws == TRAILER + rest;
      assert ws[..3] == TRAILER && ws[3..] == rest;
    } else {
      var e, tail := es[0], EncodeAll(es[1..]) + TRAILER + rest;
      assert es == [e] + es[1..];
      EncodeFirst(e, es[1..]);
      DecodeSamplesBack(es[1..], rest);
      FirstWords(ws, e, tail);
    }
  }

  lemma FirstWords(ws: seq<nat>, e: Entry, tail: seq<nat>)
    requires ws == Encode(e) + tail
    ensures |ws| >= 2 + |e.stack| && ws[0] == e.count && ws[1] == |e.stack|
    ensures ws[2..2 + |e.stack|] == e.stack && ws[2 + |e.stack|..] == tail
  {
  }

  /** A finished stream decodes to its period, its samples in order, and what was written after it. */
  lemma DecodeBack(period: nat, es: seq<Entry>, rest: seq<nat>)
    requires forall i :: 0 <= i < |es| ==> 0 < es[i].count
    ensures Decode(Header(period) + EncodeAll(es) + TRAILER + rest) == Some(Profile(period, es, rest))
  {
    hide DecodeSamples, EncodeAll;
    var body := EncodeAll(es) + TRAILER + rest;
    DecodeSamplesBack(es, rest);
    HeaderFirst(period, body);
    assert Header(period) + EncodeAll(es) + TRAILER + rest == Header(period) + body;
  }

  lemma HeaderFirst(period: nat, body: seq<nat>)
    ensures var ws := Header(period) + body; |ws| >= 5 && ws[..5] == Header(period) && ws[3] == period && ws[5..] == body
  {
  }

  // ---------------------------------------------------------------- counting

  /** The hits of a trace in a list of entries. */
  function Tally(es: seq<Entry>, trace: seq<nat>): nat {
    if es == [] then 0
    else Tally(es[..|es| - 1], trace) + if es[|es| - 1].stack == trace then es[|es| - 1].count else 0
  }

  function Hits(adds: seq<seq<nat>>, trace: seq<nat>): nat {
    if adds == [] then 0 else Hits(adds[..|adds| - 1], trace) + if adds[|adds| - 1] == trace then 1 else 0
  }

  function One(e: Entry, trace: seq<nat>): nat {
    if e.stack == trace then e.count else 0
  }

  lemma {:induction false} TallyUpdate(es: seq<Entry>, i: nat, e: Entry, trace: seq<nat>)
    requires i < |es|
    ensures Tally(es[i := e], trace) == Tally(es, trace) - One(es[i], trace) + One(e, trace)
  {
    var n := |es| - 1;
    if i == n {
      assert es[i := e][..n] == es[..n];
    } else {
      TallyUpdate(es[..n], i, e, trace);
      assert es[i := e][..n] == es[..n][i := e];
    }
  }

  lemma TallyPush(es: seq<Entry>, e: Entry, trace: seq<nat>)
    ensures Tally(es + [e], trace) == Tally(es, trace) + One(e, trace)
  {
    assert (es + [e])[..|es|] == es;
  }

  lemma HitsPush(adds: seq<seq<nat>>, stack: seq<nat>, trace: seq<nat>)
    ensures Hits(adds + [stack], trace) == Hits(adds, trace) + if stack == trace then 1 else 0
  {
    assert (adds + [stack])[..|adds|] == adds;
  }

  lemma {:induction false} TallyZero(es: seq<Entry>, trace: seq<nat>)
    requires forall i :: 0 <= i < |es| ==> es[i].count == 0
    ensures Tally(es, trace) == 0
  {
    if es != [] {
      TallyZero(es[..|es| - 1], trace);
    }
  }

  // ---------------------------------------------------------------- the table

  function Rotate(h: nat): nat {
    h * 256 % WORD + h / 0x100_0000_0000_0000
  }

  function Hash(stack: seq<nat>): nat {
    if stack == [] then 0
    else (Rotate(Hash(stack[..|stack| - 1])) + stack[|stack| - 1] * 41) % WORD
  }

  /** The first place of the bucket, from a on, that holds the trace. */
  function Match(bucket: seq<Entry>, a: nat, stack: seq<nat>): (m: nat)
    requires a <= |bucket|
    ensures a <= m <= |bucket| && (m < |bucket| ==> bucket[m].stack == stack)
    decreases |bucket| - a
  {
    if a == |bucket| || bucket[a].stack == stack then a else Match(bucket, a + 1, stack)
  }

  /** The first place with the smallest count, given the best of those before a. */
  function Victim(bucket: seq<Entry>, a: nat, best: nat): (m: nat)
    requires best < a <= |bucket|
    ensures m < |bucket| && bucket[m].count <= bucket[best].count
    ensures forall i :: a <= i < |bucket| ==> bucket[m].count <= bucket[i].count
    decreases |bucket| - a
  {
    if a == |bucket| then best
    else Victim(bucket, a + 1, if bucket[a].count < bucket[best].count then a else best)
  }

  /** The table after a sample for the bucket at base, and the entry thrown out for it. */
  function AddTo(table: seq<Entry>, base: nat, stack: seq<nat>): (seq<Entry>, Option<Entry>)
    requires base + ASSOCIATIVITY <= |table|
  {
    var bucket := table[base..base + ASSOCIATIVITY];
    var m := Match(bucket, 0, stack);
    if m < ASSOCIATIVITY then (table[base + m := Entry(bucket[m].count + 1, stack)], None)
    else
      var v := Victim(bucket, 1, 0);
      (table[base + v := Entry(1, stack)], if bucket[v].count > 0 then Some(bucket[v]) else None)
  }

  /** Table and thrown-out entry together have one hit more, of this trace. */
  lemma AddConserves(table: seq<Entry>, base: nat, stack: seq<nat>, trace: seq<nat>)
    requires base + ASSOCIATIVITY <= |table|
    ensures var (t, out) := AddTo(table, base, stack);
            Tally(t, trace) + (if out.Some? then One(out.value, trace) else 0)
              == Tally(table, trace) + if stack == trace then 1 else 0
  {
    hide Match, Victim, Tally;
    var bucket := table[base..base + ASSOCIATIVITY];
    var m := Match(bucket, 0, stack);
    if m < ASSOCIATIVITY {
      TallyUpdate(table, base + m, Entry(bucket[m].count + 1, stack), trace);
    } else {
      TallyUpdate(table, base + Victim(bucket, 1, 0), Entry(1, stack), trace);
    }
  }

  /** The entry thrown out is one of the least hit of its bucket, and only when the trace is new there. */
  lemma EvictsLeastHit(table: seq<Entry>, base: nat, stack: seq<nat>, a: nat)
    requires base + ASSOCIATIVITY <= |table| && a < ASSOCIATIVITY && AddTo(table, base, stack).1.Some?
    ensures AddTo(table, base, stack).1.value.count <= table[base + a].count && table[base + a].stack != stack
  {
    hide Victim, Match;
    var bucket := table[base..base + ASSOCIATIVITY];
    assert bucket[a] == table[base + a];
    NoMatch(bucket, 0, stack, a);
  }

  lemma {:induction false} NoMatch(bucket: seq<Entry>, b: nat, stack: seq<nat>, a: nat)
    requires b <= a < |bucket| && Match(bucket, b, stack) == |bucket|
    ensures bucket[a].stack != stack
    decreases a - b
  {
    if b < a {
      NoMatch(bucket, b + 1, stack, a);
    }
  }

  // ---------------------------------------------------------------- what the collector keeps

  predicate EntryOk(e: Entry) {
    |e.stack| <= MAX_DEPTH && (0 < e.count ==> 0 < |e.stack|)
  }

  predicate TableOk(table: seq<Entry>) {
    |table| == BUCKETS * ASSOCIATIVITY && forall i :: 0 <= i < |table| ==> EntryOk(table[i])
  }

  predicate SamplesOk(samples: seq<Entry>) {
    forall i :: 0 <= i < |samples| ==> 0 < samples[i].count
  }

  /** Every sample since Start is counted in the table or in an entry thrown out. */
  ghost predicate Conserved(table: seq<Entry>, samples: seq<Entry>, adds: seq<seq<nat>>) {
    forall trace: seq<nat> :: Tally(table, trace) + Tally(samples, trace) == Hits(adds, trace)
  }

  /** The words of the stream: header, then the entries thrown out so far. */
  function Stream(period: nat, samples: seq<Entry>): seq<nat> {
    Header(period) + EncodeAll(samples)
  }

  lemma StreamPush(period: nat, samples: seq<Entry>, e: Entry)
    ensures Stream(period, samples + [e]) == Stream(period, samples) + Encode(e)
  {
    assert (samples + [e])[..|samples|] == samples;
  }

  lemma EmptyStream(period: nat)
    ensures Stream(period, []) == Header(period) == [] + Header(period)
  {
  }

  predicate IsQuotient(q: nat, frequency: int) {
    var f := if frequency < 0 then -frequency else frequency;
    q * f <= 1000000 < (q + 1) * f
  }

  /** The whole microseconds between samples, as a word: rounded toward zero, and negative for a negative frequency. */
  function Period(frequency: int): (p: nat)
    requires frequency != 0
    ensures 0 < frequency ==> p * frequency <= 1000000 < (p + 1) * frequency
    ensures frequency < 0 ==> exists q: nat :: IsQuotient(q, frequency) && p == (WORD - q) % WORD
  {
    assert frequency < 0 ==> IsQuotient(1000000 / -frequency, frequency);
    if frequency > 0 then 1000000 / frequency else (WORD - 1000000 / -frequency) % WORD
  }

  lemma StartConserves(table: seq<Entry>)
    requires forall i :: 0 <= i < |table| ==> table[i].count == 0
    ensures Conserved(table, [], [])
  {
    forall trace: seq<nat> ensures Tally(table, trace) + Tally([], trace) == Hits([], trace) {
      TallyZero(table, trace);
    }
  }

  lemma AddKeeps(table: seq<Entry>, base: nat, stack: seq<nat>, samples: seq<Entry>, adds: seq<seq<nat>>)
    requires base + ASSOCIATIVITY <= |table| && Conserved(table, samples, adds)
    ensures var (t, out) := AddTo(table, base, stack);
            Conserved(t, if out.Some? then samples + [out.value] else samples, adds + [stack])
  {
    hide AddTo, Tally, Hits;
    var (t, out) := AddTo(table, base, stack);
    var samples' := if out.Some? then samples + [out.value] else samples;
    forall trace: seq<nat> ensures Tally(t, trace) + Tally(samples', trace) == Hits(adds + [stack], trace) {
      AddConserves(table, base, stack, trace);
      HitsPush(adds, stack, trace);
      if out.Some? {
        TallyPush(samples, out.value, trace);
      }
    }
  }

  /** Moving an entry from the table to the stream keeps the count. */
  lemma MoveKeeps(table: seq<Entry>, i: nat, samples: seq<Entry>, adds: seq<seq<nat>>)
    requires i < |table| && Conserved(table, samples, adds)
    ensures Conserved(table[i := Entry(0, [])], samples + [table[i]], adds)
  {
    hide Tally, Hits;
    forall trace: seq<nat>
      ensures Tally(table[i := Entry(0, [])], trace) + Tally(samples + [table[i]], trace) == Hits(adds, trace)
    {
      TallyUpdate(table, i, Entry(0, []), trace);
      TallyPush(samples, table[i], trace);
    }
  }

  class Collector {
    var enabled: bool
    var table: array<Entry>
    var buffer: array<nat>
    var used: nat
    var written: seq<nat>
    var count: nat
    var evictions: nat
    var totalBytes: nat
    ghost var period: nat
    ghost var samples: seq<Entry>
    ghost var adds: seq<seq<nat>>

    ghost predicate Valid()
      reads this, table, buffer
    {
      enabled ==>
        && buffer.Length == BUFFER_LENGTH && used <= BUFFER_LENGTH
        && TableOk(table[..]) && SamplesOk(samples)
        && written + buffer[..used] == Stream(period, samples)
        && Conserved(table[..], samples, adds) && count == |adds| && totalBytes == 8 * |written|
    }

    constructor ()
      ensures Valid() && !enabled
    {
      enabled, used, written, count, evictions, totalBytes := false, 0, [], 0, 0, 0;
      table, buffer := new Entry[0], new nat[0];
      period, samples, adds := 0, [], [];
    }

    /** Start: refuses when already collecting or when the file does not open. */
    method Start(opens: bool, frequency: int) returns (ok: bool)
      requires Valid() && frequency != 0
      modifies this
      ensures Valid() && ok == (!old(enabled) && opens)
      ensures ok ==> enabled && fresh(table) && fresh(buffer) && written == [] && samples == [] && adds == [] && period == Period(frequency)
      ensures !ok ==> unchanged(this)
    {
      if enabled || !opens {
        return false;
      }
      hide Conserved, Header, Period, Stream, TableOk;
      used, count, evictions, totalBytes := 0, 0, 0, 0;
      table := NewTable();
      buffer := new nat[BUFFER_LENGTH];
      written, period, samples, adds := [], Period(frequency), [], [];
      WriteHeader(buffer, Period(frequency));
      used := 5;
      enabled := true;
      EmptyStream(period);
      return true;
    }

    /** A table with no entry in use: it holds no samples. */
    static method NewTable() returns (table: array<Entry>)
      ensures fresh(table) && TableOk(table[..]) && Conserved(table[..], [], [])
    {
      hide Conserved;
      table := new Entry[BUCKETS * ASSOCIATIVITY](_ => Entry(0, []));
      StartConserves(table[..]);
    }

    /** The special entries at the start of the stream. */
    static method WriteHeader(buffer: array<nat>, period: nat)
      requires buffer.Length >= 5
      modifies buffer
      ensures buffer[..5] == Header(period)
    {
      buffer[0] := 0;
      buffer[1] := 3;
      buffer[2] := 0;
      buffer[3] := period;
      buffer[4] := 0;
    }

    /** FlushEvicted: the buffer goes to the file. */
    method FlushEvicted()
      requires used <= buffer.Length
      modifies `written, `used, `totalBytes
      ensures used == 0 && written == old(written) + old(buffer[..used])
      ensures totalBytes == old(totalBytes) + 8 * old(used)
    {
      if used > 0 {
        totalBytes := totalBytes + 8 * used;
        written := written + buffer[..used];
      }
      used := 0;
    }

    /** Evict: one entry goes to the buffer, which is flushed first if it has no room. */
    method Evict(e: Entry)
      requires buffer.Length == BUFFER_LENGTH && used <= BUFFER_LENGTH && |e.stack| <= MAX_DEPTH
      modifies `written, `used, `totalBytes, buffer
      ensures used <= BUFFER_LENGTH
      ensures written + buffer[..used] == old(written + buffer[..used]) + Encode(e)
      ensures totalBytes - 8 * |written| == old(totalBytes - 8 * |written|)
    {
      if used + (|e.stack| + 2) > BUFFER_LENGTH {
        FlushEvicted();
      }
      Append(buffer, used, e);
      used := used + 2 + |e.stack|;
    }

    /** Writes an entry behind the first words of the buffer. */
    static method Append(buffer: array<nat>, at: nat, e: Entry)
      requires at + 2 + |e.stack| <= buffer.Length
      modifies buffer
      ensures buffer[..at + 2 + |e.stack|] == old(buffer[..at]) + Encode(e)
    {
      ghost var sofar := buffer[..at];
      buffer[at] := e.count;
      buffer[at + 1] := |e.stack|;
      assert buffer[..at + 2] == sofar + [e.count, |e.stack|];
      var i := 0;
      while i < |e.stack|
        invariant i <= |e.stack|
        invariant buffer[..at + 2 + i] == sofar + [e.count, |e.stack|] + e.stack[..i]
      {
        buffer[at + 2 + i] := e.stack[i];
        assert buffer[..at + 2 + (i + 1)] == buffer[..at + 2 + i] + [e.stack[i]];
        assert e.stack[..i + 1] == e.stack[..i] + [e.stack[i]];
        i := i + 1;
      }
      assert e.stack[..|e.stack|] == e.stack;
    }

    static method HashStack(stack: seq<nat>) returns (h: nat)
      ensures h == Hash(stack)
    {
      h := 0;
      for i := 0 to |stack|
        invariant h == Hash(stack[..i])
      {
        assert stack[..i + 1][..i] == stack[..i];
        h := Rotate(h);
        h := (h + (stack[i] * 31 + stack[i] * 7 + stack[i] * 3)) % WORD;
      }
      assert stack[..|stack|] == stack;
    }

    static method SameStack(e: seq<nat>, stack: seq<nat>) returns (same: bool)
      ensures same == (e == stack)
    {
      if |e| != |stack| {
        return false;
      }
      for i := 0 to |stack|
        invariant forall j :: 0 <= j < i ==> e[j] == stack[j]
      {
        if e[i] != stack[i] {
          return false;
        }
      }
      return true;
    }

    static method FindMatch(bucket: seq<Entry>, stack: seq<nat>) returns (m: nat)
      ensures m == Match(bucket, 0, stack)
    {
      m := 0;
      while m < |bucket|
        invariant m <= |bucket| && Match(bucket, 0, stack) == Match(bucket, m, stack)
      {
        var same := SameStack(bucket[m].stack, stack);
        if same {
          return;
        }
        m := m + 1;
      }
    }

    static method FindVictim(bucket: seq<Entry>) returns (v: nat)
      requires 0 < |bucket|
      ensures v == Victim(bucket, 1, 0)
    {
      v := 0;
      for a := 1 to |bucket|
        invariant v < a && Victim(bucket, 1, 0) == Victim(bucket, a, v)
      {
        if bucket[a].count < bucket[v].count {
          v := a;
        }
      }
    }

    /** The trace that is counted: the innermost frames, up to 64. */
    static function Cut(depth: int, stack: seq<nat>): (trace: seq<nat>)
      requires 0 < depth <= |stack|
      ensures trace <= stack && (depth <= 64 ==> |trace| == depth) && (64 < depth ==> |trace| == 64)
    {
      stack[..if depth > MAX_DEPTH then MAX_DEPTH else depth]
    }

    static function BaseOf(stack: seq<nat>): (b: nat)
      ensures b + ASSOCIATIVITY <= BUCKETS * ASSOCIATIVITY
    {
      Hash(stack) % BUCKETS * ASSOCIATIVITY
    }

    /** Add: counts one sample; when its bucket is full of other traces the least hit one is thrown out. */
    method Add(depth: int, stack: seq<nat>)
      requires Valid() && 0 < depth <= |stack|
      modifies this, table, buffer
      ensures Valid() && table == old(table) && buffer == old(buffer) && enabled == old(enabled)
      ensures !enabled ==> unchanged(this) && unchanged(table) && unchanged(buffer)
      ensures enabled ==> adds == old(adds) + [Cut(depth, stack)] && period == old(period)
      ensures enabled ==>
                old(|table[..]| == BUCKETS * ASSOCIATIVITY) &&
                var (t, out) := old(AddTo(table[..], BaseOf(Cut(depth, stack)), Cut(depth, stack)));
                && table[..] == t && samples == (if out.Some? then old(samples) + [out.value] else old(samples))
                && evictions == old(evictions) + (if out.Some? then 1 else 0)
    {
      if !enabled {
        return;
      }
      hide Valid, AddTo, Hash;
      AddSample(Cut(depth, stack));
    }

    method AddSample(trace: seq<nat>)
      requires Valid() && enabled && 0 < |trace| <= MAX_DEPTH
      modifies `written, `used, `totalBytes, `evictions, `count, `samples, `adds, table, buffer
      ensures Valid() && adds == old(adds) + [trace]
      ensures old(|table[..]| == BUCKETS * ASSOCIATIVITY) &&
              var (t, out) := old(AddTo(table[..], BaseOf(trace), trace));
              && table[..] == t && samples == (if out.Some? then old(samples) + [out.value] else old(samples))
              && evictions == old(evictions) + (if out.Some? then 1 else 0)
    {
      hide Conserved, Hash, Match, Victim, TableOk, SamplesOk, Stream, AddTo, Encode, EncodeAll;
      TableLength(table[..]);
      var h := HashStack(trace);
      count := count + 1;
      var base := h % BUCKETS * ASSOCIATIVITY;
      SampleKeeps(table[..], base, trace, period, samples, adds);
      ghost var out := Record(base, trace);
      samples := Grown(samples, out);
      adds := adds + [trace];
    }

    /** Counts the trace in its bucket. */
    method Record(base: nat, trace: seq<nat>) returns (ghost out: Option<Entry>)
      requires buffer.Length == BUFFER_LENGTH && used <= BUFFER_LENGTH && TableOk(table[..])
      requires base + ASSOCIATIVITY <= BUCKETS * ASSOCIATIVITY
      modifies `written, `used, `totalBytes, `evictions, table, buffer
      ensures (table[..], out) == old(AddTo(table[..], base, trace)) && used <= BUFFER_LENGTH
      ensures written + buffer[..used] == old(written + buffer[..used]) + (if out.Some? then Encode(out.value) else [])
      ensures totalBytes - 8 * |written| == old(totalBytes - 8 * |written|)
      ensures evictions == old(evictions) + if out.Some? then 1 else 0
    {
      hide Match, Victim, Encode;
      out := None;
      ghost var was := table[..];
      var bucket := table[base..base + ASSOCIATIVITY];
      assert bucket == was[base..base + ASSOCIATIVITY];
      var m := FindMatch(bucket, trace);
      if m < ASSOCIATIVITY {
        table[base + m] := Entry(table[base + m].count + 1, trace);
      } else {
        var v := FindVictim(bucket);
        var e := table[base + v];
        if e.count > 0 {
          evictions := evictions + 1;
          assert EntryOk(was[base + v]);
          Evict(e);
          out := Some(e);
        }
        table[base + v] := Entry(1, trace);
      }
    }

    /** The first loop of Stop and FlushTable: all counted entries leave the table for the stream. */
    method DrainTable()
      requires Valid() && enabled
      modifies `written, `used, `totalBytes, `samples, table, buffer
      ensures Valid() && enabled && forall i :: 0 <= i < table.Length ==> table[i].count == 0
    {
      for i := 0 to BUCKETS * ASSOCIATIVITY
        invariant Valid() && enabled && table.Length == BUCKETS * ASSOCIATIVITY
        invariant forall j :: 0 <= j < i ==> table[j].count == 0
      {
        if table[i].count > 0 {
          DrainOne(i);
        }
      }
    }

    method DrainOne(i: nat)
      requires Valid() && enabled && i < table.Length && 0 < table[i].count
      modifies `written, `used, `totalBytes, `samples, table, buffer
      ensures Valid() && table[..] == old(table[..])[i := Entry(0, [])]
    {
      ghost var was := table[..];
      var e := table[i];
      assert EntryOk(was[i]);
      MoveKeeps(was, i, samples, adds);
      hide Conserved, Stream, Encode;
      Evict(e);
      StreamPush(period, samples, e);
      samples := samples + [e];
      table[i] := Entry(0, []);
      assert table[..] == was[i := Entry(0, [])];
    }

    /** FlushTable: everything counted so far is in the file, and collecting goes on with an empty table. */
    method FlushTable()
      requires Valid()
      modifies this, table, buffer
      ensures Valid() && enabled == old(enabled) && table == old(table) && buffer == old(buffer)
      ensures !enabled ==> unchanged(this) && unchanged(table) && unchanged(buffer)
      ensures enabled ==> adds == old(adds) && period == old(period) && written == Stream(period, samples)
      ensures enabled ==> forall trace: seq<nat> :: Tally(samples, trace) == Hits(adds, trace)
    {
      if !enabled {
        return;
      }
      DrainTable();
      EmptyTable(table[..], samples, adds);
      hide Conserved, Stream, Tally, Hits, TableOk;
      assert buffer[..0] == [];
      FlushEvicted();
    }

    /**
     * Stop: the file holds header, entries and end marker; it decodes back, and for every trace the
     * counts in it add up to the number of samples of that trace since Start.
     */
    method Stop()
      requires Valid()
      modifies this, table, buffer
      ensures Valid() && !enabled
      ensures !old(enabled) ==> unchanged(this)
      ensures old(enabled) ==>
                && adds == old(adds) && period == old(period)
                && (forall rest :: Decode(written + rest) == Some(Profile(period, samples, rest)))
                && (forall trace: seq<nat> :: Tally(samples, trace) == Hits(adds, trace))
    {
      if !enabled {
        return;
      }
      DrainTable();
      EmptyTable(table[..], samples, adds);
      if used + 3 > BUFFER_LENGTH {
        FlushEvicted();
      }
      ghost var sofar := written + buffer[..used];
      WriteTrailer(buffer, used);
      used := used + 3;
      assert written + buffer[..used] == sofar + TRAILER;
      FlushEvicted();
      enabled := false;
      Finished(period, samples, written);
    }

    static method WriteTrailer(buffer: array<nat>, at: nat)
      requires at + 3 <= buffer.Length
      modifies buffer
      ensures buffer[..at + 3] == old(buffer[..at]) + TRAILER
    {
      buffer[at] := 0;
      buffer[at + 1] := 1;
      buffer[at + 2] := 0;
    }
  }

  lemma Finished(period: nat, samples: seq<Entry>, written: seq<nat>)
    requires SamplesOk(samples) && written == Stream(period, samples) + TRAILER
    ensures forall rest :: Decode(written + rest) == Some(Profile(period, samples, rest))
  {
    hide Decode, EncodeAll;
    forall rest ensures Decode(written + rest) == Some(Profile(period, samples, rest)) {
      DecodeBack(period, samples, rest);
      assert written + rest == Header(period) + EncodeAll(samples) + TRAILER + rest;
    }
  }

  lemma EmptyTable(table: seq<Entry>, samples: seq<Entry>, adds: seq<seq<nat>>)
    requires Conserved(table, samples, adds) && forall i :: 0 <= i < |table| ==> table[i].count == 0
    ensures forall trace: seq<nat> :: Tally(samples, trace) == Hits(adds, trace)
  {
    hide Tally, Hits;
    forall trace: seq<nat> ensures Tally(samples, trace) == Hits(adds, trace) {
      TallyZero(table, trace);
    }
  }

  ghost function Grown(samples: seq<Entry>, out: Option<Entry>): seq<Entry> {
    if out.Some? then samples + [out.value] else samples
  }

  lemma TableLength(table: seq<Entry>)
    requires TableOk(table)
    ensures |table| == BUCKETS * ASSOCIATIVITY
  {
  }

  lemma SampleKeeps(table: seq<Entry>, base: nat, trace: seq<nat>, period: nat, samples: seq<Entry>, adds: seq<seq<nat>>)
    requires TableOk(table) && base + ASSOCIATIVITY <= |table| && 0 < |trace| <= MAX_DEPTH
    requires SamplesOk(samples) && Conserved(table, samples, adds)
    ensures var (t, out) := AddTo(table, base, trace);
            && TableOk(t) && SamplesOk(Grown(samples, out)) && Conserved(t, Grown(samples, out), adds + [trace])
            && Stream(period, Grown(samples, out)) == Stream(period, samples) + if out.Some? then Encode(out.value) else []
  {
    AddKeeps(table, base, trace, samples, adds);
    AddTableOk(table, base, trace);
    hide Conserved, TableOk, AddTo, Stream, Encode;
    var (t, out) := AddTo(table, base, trace);
    if out.Some? {
      StreamPush(period, samples, out.value);
    }
  }

  lemma AddTableOk(table: seq<Entry>, base: nat, stack: seq<nat>)
    requires TableOk(table) && base + ASSOCIATIVITY <= |table| && 0 < |stack| <= MAX_DEPTH
    ensures TableOk(AddTo(table, base, stack).0)
    ensures AddTo(table, base, stack).1.Some? ==> 0 < AddTo(table, base, stack).1.value.count
  {
    hide Match, Victim;
  }
}
