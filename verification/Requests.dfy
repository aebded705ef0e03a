/** The request buffer: operation tag, key token and value, split the way strtok_r does. */
module Requests {
  import opened Bytes

  datatype Op = Get | Set | Append

  /** A parsed request. `echo` is the buffer as strtok_r leaves it. */
  datatype Request = Request(op: Op, key: seq<byte>, val: seq<byte>, echo: seq<byte>)

  const GET_UPPER: seq<byte> := [71, 69, 84]
  const GET_LOWER: seq<byte> := [103, 101, 116]
  const SET_UPPER: seq<byte> := [83, 69, 84]
  const SET_LOWER: seq<byte> := [115, 101, 116]
  const APP_UPPER: seq<byte> := [65, 80, 80]
  const APP_LOWER: seq<byte> := [97, 112, 112]

  predicate Tagged(buf: seq<byte>) {
    || GET_UPPER <= buf || GET_LOWER <= buf
    || SET_UPPER <= buf || SET_LOWER <= buf
    || APP_UPPER <= buf || APP_LOWER <= buf
  }

  function OpOf(buf: seq<byte>): Op {
    if GET_UPPER <= buf || GET_LOWER <= buf then Get
    else if SET_UPPER <= buf || SET_LOWER <= buf then Set
    else Append
  }

  /** The C string that starts at byte 4. */
  function Body(buf: seq<byte>): (s: seq<byte>)
    requires 4 <= |buf|
    ensures NulFree(s)
  {
    buf[4..][..Until(buf[4..], NUL)]
  }

  function KeyStart(buf: seq<byte>): nat
    requires 4 <= |buf|
  {
    Leading(Body(buf), SPACE)
  }

  /** The first space-delimited token of the body. */
  function KeyOf(buf: seq<byte>): (k: seq<byte>)
    requires 4 <= |buf|
    ensures NulFree(k) && SPACE !in k && KeyStart(buf) + |k| <= |Body(buf)|
  {
    var rest := Body(buf)[KeyStart(buf)..];
    rest[..Until(rest, SPACE)]
  }

  /** Everything after the delimiter that ends the key. */
  function ValOf(buf: seq<byte>): (v: seq<byte>)
    requires 4 <= |buf|
    ensures NulFree(v)
  {
    var end := KeyStart(buf) + |KeyOf(buf)|;
    if end < |Body(buf)| then Body(buf)[end + 1..] else []
  }

  /** strtok_r overwrites the delimiter after the key with NUL. */
  function Echo(buf: seq<byte>): (r: seq<byte>)
    requires 4 <= |buf|
    ensures |r| == |buf|
    ensures forall i :: 0 <= i < |buf| && r[i] != buf[i] ==>
              buf[i] == SPACE && r[i] == NUL && i == 4 + KeyStart(buf) + |KeyOf(buf)|
  {
    var end := KeyStart(buf) + |KeyOf(buf)|;
    if end < |Body(buf)| then buf[4 + end := NUL] else buf
  }

  /** A buffer that a worker can serve: known tag, terminated body, and a key in it. */
  predicate WellFormed(buf: seq<byte>, maxBuf: nat) {
    && |buf| == maxBuf
    && 4 <= |buf|
    && Tagged(buf)
    && NUL in buf[4..]
    && KeyOf(buf) != []
  }

  function Parse(buf: seq<byte>): (r: Request)
    requires 4 <= |buf|
    ensures NulFree(r.key) && NulFree(r.val) && SPACE !in r.key
  {
    Request(OpOf(buf), KeyOf(buf), ValOf(buf), Echo(buf))
  }

  function Tag(op: Op): seq<byte> {
    match op
    case Get => GET_UPPER
    case Set => SET_UPPER
    case Append => APP_UPPER
  }

  /** The request line a client sends. */
  function Format(op: Op, key: seq<byte>, val: seq<byte>): seq<byte> {
    Tag(op) + [SPACE] + key + [SPACE] + val
  }

  lemma {:induction false} UntilIs(s: seq<byte>, stop: byte, n: nat)
    requires n <= |s| && (forall i :: 0 <= i < n ==> s[i] != stop) && (n < |s| ==> s[n] == stop)
    ensures Until(s, stop) == n
  {
    if 0 < n {
      UntilIs(s[1..], stop, n - 1);
    }
  }

  lemma {:induction false} LeadingIs(s: seq<byte>, b: byte, n: nat)
    requires n <= |s| && (forall i :: 0 <= i < n ==> s[i] == b) && (n < |s| ==> s[n] != b)
    ensures Leading(s, b) == n
  {
    if 0 < n {
      LeadingIs(s[1..], b, n - 1);
    }
  }

  function Blanks(n: nat): (s: seq<byte>)
    ensures |s| == n && forall i :: 0 <= i < n ==> s[i] == SPACE
  {
    seq(n, _ => SPACE)
  }

  /** What follows the key: its delimiter and the value, or nothing. */
  function Tail(delimited: bool, delimiter: byte, val: seq<byte>): seq<byte> {
    if delimited then [delimiter] + val else []
  }

  /** A request buffer byte by byte: four bytes, blanks, the key, what follows it, and the terminator. */
  function Layout(head: seq<byte>, blanks: nat, key: seq<byte>, tail: seq<byte>, junk: seq<byte>): seq<byte> {
    head + Blanks(blanks) + key + tail + [NUL] + junk
  }

  predicate IsKey(key: seq<byte>) {
    NulFree(key) && SPACE !in key && key != []
  }

  /** The body and the key of a buffer laid out like this. */
  lemma LayoutKey(head: seq<byte>, blanks: nat, key: seq<byte>, delimited: bool, val: seq<byte>, junk: seq<byte>)
    requires |head| == 4 && IsKey(key) && NulFree(val)
    ensures var buf := Layout(head, blanks, key, Tail(delimited, SPACE, val), junk);
            && Body(buf) == Blanks(blanks) + key + Tail(delimited, SPACE, val)
            && KeyStart(buf) == blanks && KeyOf(buf) == key
  {
    var buf := Layout(head, blanks, key, Tail(delimited, SPACE, val), junk);
    var body := Blanks(blanks) + key + Tail(delimited, SPACE, val);
    assert buf[4..] == body + ([NUL] + junk);
    UntilIs(buf[4..], NUL, |body|);
    assert Body(buf) == body;
    assert body[blanks] == key[0] && key[0] in key;
    LeadingIs(body, SPACE, blanks);
    var rest := body[blanks..];
    assert rest == key + Tail(delimited, SPACE, val);
    UntilIs(rest, SPACE, |key|);
  }

  /**
   * Reading a buffer splits it at its first blanks and at the one that ends the key. The echo is the
   * same bytes with that one blank overwritten, or all the same bytes if no blank follows the key.
   */
  lemma ParseLayout(head: seq<byte>, blanks: nat, key: seq<byte>, delimited: bool, val: seq<byte>, junk: seq<byte>)
    requires |head| == 4 && IsKey(key) && NulFree(val) && (!delimited ==> val == [])
    ensures var r := Parse(Layout(head, blanks, key, Tail(delimited, SPACE, val), junk));
            r.key == key && r.val == val && r.echo == Layout(head, blanks, key, Tail(delimited, NUL, val), junk)
  {
    var buf := Layout(head, blanks, key, Tail(delimited, SPACE, val), junk);
    LayoutKey(head, blanks, key, delimited, val, junk);
    if delimited {
      assert ValOf(buf) == val;
      assert Echo(buf) == Layout(head, blanks, key, Tail(delimited, NUL, val), junk);
    }
  }

  /** Every buffer that a worker can serve is laid out like this. */
  lemma WellFormedLayout(buf: seq<byte>, maxBuf: nat) returns (blanks: nat, delimited: bool, junk: seq<byte>)
    requires WellFormed(buf, maxBuf)
    ensures IsKey(KeyOf(buf)) && NulFree(ValOf(buf)) && (!delimited ==> ValOf(buf) == [])
    ensures buf == Layout(buf[..4], blanks, KeyOf(buf), Tail(delimited, SPACE, ValOf(buf)), junk)
  {
    blanks := KeyStart(buf);
    delimited := blanks + |KeyOf(buf)| < |Body(buf)|;
    BodySplits(buf);
    junk := AfterBody(buf);
    Regroup(buf[..4], Blanks(blanks), KeyOf(buf), Tail(delimited, SPACE, ValOf(buf)), junk);
  }

  lemma Regroup(head: seq<byte>, blanks: seq<byte>, key: seq<byte>, tail: seq<byte>, junk: seq<byte>)
    ensures head + (blanks + key + tail) + [NUL] + junk == head + blanks + key + tail + [NUL] + junk
  {
  }

  lemma BodySplits(buf: seq<byte>)
    requires 4 <= |buf|
    ensures var delimited := KeyStart(buf) + |KeyOf(buf)| < |Body(buf)|;
            && Body(buf) == Blanks(KeyStart(buf)) + KeyOf(buf) + Tail(delimited, SPACE, ValOf(buf))
            && (!delimited ==> ValOf(buf) == [])
  {
    var body, key, blanks := Body(buf), KeyOf(buf), KeyStart(buf);
    var rest := body[blanks..];
    assert body == Blanks(blanks) + rest && rest == key + rest[|key|..];
    if blanks + |key| < |body| {
      assert rest[|key|..] == [SPACE] + body[blanks + |key| + 1..];
    }
  }

  lemma AfterBody(buf: seq<byte>) returns (junk: seq<byte>)
    requires 4 <= |buf| && NUL in buf[4..]
    ensures buf == buf[..4] + Body(buf) + [NUL] + junk
  {
    hide Until;
    var text, n := buf[4..], Until(buf[4..], NUL);
    junk := text[n + 1..];
    assert text == text[..n] + [NUL] + junk;
    assert buf == buf[..4] + text;
  }

  /**
   * What a client formats is what the worker and the dispatcher both read back; on a miss the
   * client sees its own line again with the blank after the key overwritten.
   */
  lemma ParseFormat(op: Op, key: seq<byte>, val: seq<byte>, maxBuf: nat)
    requires IsKey(key) && NulFree(val) && |Format(op, key, val)| < maxBuf
    ensures WellFormed(Padded(Format(op, key, val), maxBuf), maxBuf)
    ensures var r := Parse(Padded(Format(op, key, val), maxBuf));
            && r.op == op && r.key == key && r.val == val
            && r.echo == Padded(Tag(op) + [SPACE] + key + [NUL] + val, maxBuf)
  {
    hide Body, KeyStart, KeyOf, ValOf, Echo, OpOf, Tagged;
    var line, head := Format(op, key, val), Tag(op) + [SPACE];
    var buf := Padded(line, maxBuf);
    var junk: seq<byte> := seq(maxBuf - |line| - 1, i => NUL);
    PaddedLayout(head, key, SPACE, val, maxBuf, junk);
    PaddedLayout(head, key, NUL, val, maxBuf, junk);
    LayoutKey(head, 0, key, true, val, junk);
    ParseLayout(head, 0, key, true, val, junk);
    assert buf[4..][|line| - 4] == NUL;
    TagRead(op, buf);
  }

  lemma PaddedLayout(head: seq<byte>, key: seq<byte>, delimiter: byte, val: seq<byte>, maxBuf: nat, junk: seq<byte>)
    requires |head| + |key| + 1 + |val| < maxBuf && junk == seq(maxBuf - |head| - |key| - 1 - |val| - 1, i => NUL)
    ensures Padded(head + key + [delimiter] + val, maxBuf) == Layout(head, 0, key, Tail(true, delimiter, val), junk)
  {
    assert Blanks(0) == [];
    assert seq(maxBuf - |head| - |key| - 1 - |val|, i => NUL) == [NUL] + junk;
  }

  function LowerTag(op: Op): seq<byte> {
    match op
    case Get => GET_LOWER
    case Set => SET_LOWER
    case Append => APP_LOWER
  }

  /** A buffer has an operation if and only if it starts with a tag of it, in either case. */
  lemma TagRead(op: Op, buf: seq<byte>)
    ensures Tagged(buf) && OpOf(buf) == op <==> Tag(op) <= buf || LowerTag(op) <= buf
  {
    if 3 <= |buf| {
      forall tag: seq<byte> | |tag| == 3 ensures tag <= buf <==> tag[0] == buf[0] && tag[1] == buf[1] && tag[2] == buf[2] {
        if tag[0] == buf[0] && tag[1] == buf[1] && tag[2] == buf[2] {
          assert tag == buf[..3];
        }
      }
    }
  }

  /** The key of a well-formed buffer is a C string that fits a reply with its terminator. */
  lemma KeyFits(buf: seq<byte>, maxBuf: nat)
    requires WellFormed(buf, maxBuf)
    ensures NulFree(KeyOf(buf)) && KeyOf(buf) != [] && |KeyOf(buf)| < maxBuf
  {
    assert |Body(buf)| <= |buf| - 4;
  }
}
