/**
 * Byte-level framing of the MultiWii Serial Protocol v1 as the flight
 * controller driver uses it: the XOR checksum, the frame it writes, and the
 * way it reads one response frame off the serial queue.
 */
module MspCodec {

  /** An unsigned 8-bit value. */
  newtype byte = x: int | 0 <= x < 256

  type uint16 = x: int | 0 <= x < 0x1_0000

  datatype Option<+T> = None | Some(value: T)

  /** `n` zero bytes: the contents of a freshly zeroed buffer. */
  function Zeros(n: nat): (z: seq<byte>)
    ensures |z| == n && forall i | 0 <= i < n :: z[i] == 0
  {
    seq(n, _ => 0)
  }

  function Pow2(k: nat): (p: nat)
    ensures p >= 1
  {
    if k == 0 then 1 else 2 * Pow2(k - 1)
  }

  /** The low `k` bits of `a`, least significant first. */
  function Bits(a: nat, k: nat): (bs: seq<bool>)
    ensures |bs| == k
  {
    if k == 0 then [] else [a % 2 == 1] + Bits(a / 2, k - 1)
  }

  /** The number whose bits, least significant first, are `bs`. */
  function Value(bs: seq<bool>): (v: nat)
    ensures v < Pow2(|bs|)
  {
    if bs == [] then 0 else (if bs[0] then 1 else 0) + 2 * Value(bs[1..])
  }

  /** Bit by bit exclusive or of two bit strings of one length. */
  function BitwiseXor(s: seq<bool>, t: seq<bool>): (r: seq<bool>)
    requires |s| == |t|
    ensures |r| == |s| && forall i | 0 <= i < |s| :: r[i] == (s[i] != t[i])
  {
    seq(|s|, i requires 0 <= i < |s| => s[i] != t[i])
  }

  /** The C `^` on two `uint8_t` values: each of the eight bits of the result is the XOR of the operands' bits. */
  function XorByte(a: byte, b: byte): (r: byte)
    ensures Bits(r as nat, 8) == BitwiseXor(Bits(a as nat, 8), Bits(b as nat, 8))
  {
    assert Pow2(8) == 256;
    BitsOfValue(BitwiseXor(Bits(a as nat, 8), Bits(b as nat, 8)));
    Value(BitwiseXor(Bits(a as nat, 8), Bits(b as nat, 8))) as byte
  }

  /** A number written as twice `h` plus a bit `m` halves to `h` and has parity `m`. */
  lemma Halve(x: nat, h: nat, m: nat)
    requires m < 2 && x == 2 * h + m
    ensures x / 2 == h && x % 2 == m
  {
  }

  /** Reading a bit string as a number and taking its bits gives the string back. */
  lemma {:induction false} BitsOfValue(bs: seq<bool>)
    ensures Bits(Value(bs), |bs|) == bs
  {
    if bs != [] {
      var rest := bs[1..];
      Halve(Value(bs), Value(rest), if bs[0] then 1 else 0);
      BitsOfValue(rest);
      assert bs == [bs[0]] + rest;
    }
  }

  /** Taking the low `k` bits of a number below 2^k and reading them back gives the number. */
  lemma {:induction false} ValueOfBits(a: nat, k: nat)
    requires a < Pow2(k)
    ensures Value(Bits(a, k)) == a
  {
    if k > 0 {
      var bs := Bits(a, k);
      assert bs[1..] == Bits(a / 2, k - 1);
      ValueOfBits(a / 2, k - 1);
    }
  }

  /** Every bit of 0 is clear. */
  lemma {:induction false} BitsOfZero(k: nat)
    ensures forall i | 0 <= i < k :: !Bits(0, k)[i]
  {
    if k > 0 {
      BitsOfZero(k - 1);
    }
  }

  /** The laws of `^` on bytes that the checksum arguments use. */
  lemma XorLaws(a: byte, b: byte, c: byte)
    ensures XorByte(a, b) == XorByte(b, a)
    ensures XorByte(XorByte(a, b), c) == XorByte(a, XorByte(b, c))
    ensures XorByte(a, a) == 0
    ensures XorByte(a, 0) == a && XorByte(0, a) == a
  {
    assert Pow2(8) == 256;
    var A, B, C, Z := Bits(a as nat, 8), Bits(b as nat, 8), Bits(c as nat, 8), Bits(0, 8);
    assert BitwiseXor(A, B) == BitwiseXor(B, A);
    BitsOfValue(BitwiseXor(A, B));
    BitsOfValue(BitwiseXor(B, C));
    assert BitwiseXor(BitwiseXor(A, B), C) == BitwiseXor(A, BitwiseXor(B, C));
    BitsOfZero(8);
    ValueOfBits(0, 8);
    ValueOfBits(a as nat, 8);
    assert BitwiseXor(A, A) == Z;
    assert BitwiseXor(A, Z) == A;
    assert BitwiseXor(Z, A) == A;
  }

  /** The XOR of every byte of `s`, folded from the left starting at 0. */
  function Xor(s: seq<byte>): byte
  {
    if s == [] then 0 else XorByte(Xor(s[..|s| - 1]), s[|s| - 1])
  }

  /** XOR distributes over concatenation, so a checksum can be folded piecewise. */
  lemma {:induction false} XorAppend(s: seq<byte>, t: seq<byte>)
    ensures Xor(s + t) == XorByte(Xor(s), Xor(t))
  {
    if t == [] {
      assert s + t == s;
      XorLaws(Xor(s), 0, 0);
    } else {
      var u, x := t[..|t| - 1], t[|t| - 1];
      assert (s + t)[..|s + t| - 1] == s + u;
      XorAppend(s, u);
      XorLaws(Xor(s), Xor(u), x);
    }
  }

  /** The XOR of one and of two bytes. */
  lemma XorPair(a: byte, b: byte)
    ensures Xor([a]) == a && Xor([a, b]) == XorByte(a, b)
  {
    assert [a][..0] == [];
    assert [a, b][..1] == [a];
    XorLaws(a, 0, 0);
  }

  /** Replacing one byte by a different one always changes the XOR. */
  lemma XorUpdate(s: seq<byte>, i: nat, b: byte)
    requires i < |s| && b != s[i]
    ensures Xor(s[i := b]) != Xor(s)
  {
    var pre, post := s[..i], s[i + 1..];
    assert s == pre + [s[i]] + post;
    assert s[i := b] == pre + [b] + post;
    XorPair(s[i], s[i]);
    XorPair(b, b);
    XorAppend(pre + [s[i]], post);
    XorAppend(pre, [s[i]]);
    XorAppend(pre + [b], post);
    XorAppend(pre, [b]);
    var p, q := Xor(pre), Xor(post);
    if XorByte(XorByte(p, b), q) == XorByte(XorByte(p, s[i]), q) {
      XorCancel(XorByte(p, b), q);
      XorCancel(XorByte(p, s[i]), q);
      XorLaws(p, b, 0);
      XorLaws(p, s[i], 0);
      XorCancel(b, p);
      XorCancel(s[i], p);
      assert false;
    }
  }

  /** XORing the same byte twice undoes it. */
  lemma XorCancel(a: byte, b: byte)
    ensures XorByte(XorByte(a, b), b) == a
  {
    XorLaws(a, b, b);
    XorLaws(b, 0, 0);
    XorLaws(a, 0, 0);
  }

  /** XORing with a fixed byte is one-to-one. */
  lemma XorInjective(a: byte, x: byte, y: byte)
    requires x != y
    ensures XorByte(a, x) != XorByte(a, y)
  {
    XorLaws(a, x, 0);
    XorLaws(a, y, 0);
    XorCancel(x, a);
    XorCancel(y, a);
  }

  /** XORing a byte in front of a sequence. */
  lemma XorCons(a: byte, s: seq<byte>)
    ensures Xor([a] + s) == XorByte(a, Xor(s))
  {
    XorAppend([a], s);
    XorPair(a, a);
  }

  /** The MSP v1 checksum of a frame: its length byte, its id and its payload XORed together. */
  function Checksum(id: byte, payload: seq<byte>): byte
    requires |payload| < 256
  {
    Xor([|payload| as byte, id] + payload)
  }

  /** Seeding the running XOR with the length XOR the id and folding in the payload gives the checksum. */
  lemma SeededChecksum(id: byte, payload: seq<byte>)
    requires |payload| < 256
    ensures XorByte(XorByte(|payload| as byte, id), Xor(payload)) == Checksum(id, payload)
  {
    XorAppend([|payload| as byte, id], payload);
    XorPair(|payload| as byte, id);
  }

  /** A whole frame: header, length byte, message id, payload, checksum. */
  function Frame(header: seq<byte>, id: byte, payload: seq<byte>): seq<byte>
    requires |payload| < 256
  {
    header + [|payload| as byte, id] + payload + [Checksum(id, payload)]
  }

  /** Where each field of a frame sits. */
  lemma FrameLayout(header: seq<byte>, id: byte, payload: seq<byte>)
    requires |payload| < 256
    ensures var f, h, n := Frame(header, id, payload), |header|, |payload|;
      && |f| == h + n + 3
      && f[..h] == header
      && f[h] == n as byte
      && f[h + 1] == id
      && f[h + 2..h + 2 + n] == payload
      && f[h + 2 + n] == Xor([n as byte, id] + payload)
  {
  }

  /** The checksum byte cancels the rest: everything after the header XORs to zero. */
  lemma FrameBodyXorsToZero(header: seq<byte>, id: byte, payload: seq<byte>)
    requires |payload| < 256
    ensures Xor(Frame(header, id, payload)[|header|..]) == 0
  {
    var body := [|payload| as byte, id] + payload;
    var c := Checksum(id, payload);
    assert Frame(header, id, payload)[|header|..] == body + [c];
    XorAppend(body, [c]);
    XorPair(c, c);
    XorLaws(c, c, c);
  }

  /** The first `n` bytes of `q`, or all of it when it holds fewer: what a read with a timeout returns. */
  function Take(q: seq<byte>, n: nat): (r: seq<byte>)
    ensures |r| <= n && |r| <= |q| && r == q[..|r|]
    ensures |r| < n ==> r == q
  {
    if n <= |q| then q[..n] else q
  }

  /** How a response read ended. */
  datatype Verdict =
    | Accepted(payload: seq<byte>)
    | ReadRaised
    | BadHeader
    | ShortBody
    | BadChecksum

  /**
   * A verdict, whether the link was flagged as lost on the way, what is left
   * in the queue, and how many reads completed.
   */
  datatype Reception = Reception(verdict: Verdict, demote: bool, rest: seq<byte>, readCount: nat)

  /**
   * Whether read number `i` (from 0) of an exchange completes on a port that
   * lets `budget` more reads complete before every read raises (None: no limit).
   */
  predicate ReadAllowed(budget: Option<nat>, i: nat)
  {
    budget.None? || i < budget.value
  }

  /** The budget left after `n` reads have completed. */
  function Spend(budget: Option<nat>, n: nat): (b: Option<nat>)
    requires budget.Some? ==> n <= budget.value
    ensures b.Some? <==> budget.Some?
  {
    if budget.None? then None else Some(budget.value - n)
  }

  /**
   * Reading one response from the queue `q`: the header first. A short header
   * read flags the link as lost and carries on to the header comparison; a
   * read that raises ends the exchange with the link flagged.
   */
  function Receive(receiveHeader: seq<byte>, headerSize: nat, q: seq<byte>, budget: Option<nat>): (r: Reception)
    ensures r.verdict.Accepted? ==>
      && |q| > headerSize && q[..headerSize] == receiveHeader
      && |r.verdict.payload| == q[headerSize] as int
    ensures r.readCount <= 3 && (r.verdict.ReadRaised? ==> !ReadAllowed(budget, r.readCount))
    ensures r.verdict.Accepted? ==> ReadAllowed(budget, 2)
    ensures budget.Some? ==> r.readCount <= budget.value
  {
    if !ReadAllowed(budget, 0) then Reception(ReadRaised, true, q, 0)
    else
      var header := Take(q, headerSize);
      if header != receiveHeader then Reception(BadHeader, |header| != headerSize, q[|header|..], 1)
      else ReceiveLength(q[|header|..], |header| != headerSize, budget)
  }

  /**
   * Then the length byte; a short read flags the link as lost and carries on
   * with length 0. `flagged` says whether the link was flagged before.
   */
  function ReceiveLength(q: seq<byte>, flagged: bool, budget: Option<nat>): (r: Reception)
    requires ReadAllowed(budget, 0)
    ensures r.verdict.Accepted? ==> |q| > 0 && |r.verdict.payload| == q[0] as int
    ensures 1 <= r.readCount <= 3 && (r.verdict.ReadRaised? ==> !ReadAllowed(budget, r.readCount))
    ensures r.verdict.Accepted? ==> ReadAllowed(budget, 2)
    ensures budget.Some? ==> r.readCount <= budget.value
  {
    if !ReadAllowed(budget, 1) then Reception(ReadRaised, true, q, 1)
    else
      var lengthRead := Take(q, 1);
      if |lengthRead| == 1 then ReceiveBody(lengthRead[0], q[1..], flagged, budget)
      else ReceiveBody(0, q, true, budget)
  }

  /**
   * Then `len + 2` bytes: id echo, payload, checksum. The id echo is only
   * part of the checksum, never compared with the id that was sent.
   */
  function ReceiveBody(len: byte, q: seq<byte>, flagged: bool, budget: Option<nat>): (r: Reception)
    requires ReadAllowed(budget, 1)
    ensures r.verdict.Accepted? ==> |r.verdict.payload| == len as int
    ensures 2 <= r.readCount <= 3 && (r.verdict.ReadRaised? ==> !ReadAllowed(budget, r.readCount))
    ensures r.verdict.Accepted? ==> ReadAllowed(budget, 2)
    ensures budget.Some? ==> r.readCount <= budget.value
  {
    if !ReadAllowed(budget, 2) then Reception(ReadRaised, true, q, 2)
    else
      var n := len as int + 2;
      var buffer := Take(q, n);
      var rest := q[|buffer|..];
      if |buffer| != n then Reception(ShortBody, true, rest, 3)
      else if !ChecksumMatches(len, buffer[..n - 1], buffer[n - 1]) then Reception(BadChecksum, flagged, rest, 3)
      else Reception(Accepted(buffer[1..n - 1]), flagged, rest, 3)
  }

  /** Whether `check` is the XOR of `seed` and every byte of `s`. */
  predicate ChecksumMatches(seed: byte, s: seq<byte>, check: byte)
  {
    XorByte(seed, Xor(s)) == check
  }

  /** The header stage, once its read completes: a mismatch, or the length stage on the rest. */
  lemma ReceiveHeaderStage(receiveHeader: seq<byte>, headerSize: nat, q: seq<byte>, budget: Option<nat>)
    requires ReadAllowed(budget, 0)
    ensures var header := Take(q, headerSize);
      Receive(receiveHeader, headerSize, q, budget)
        == if header != receiveHeader then Reception(BadHeader, |header| != headerSize, q[|header|..], 1)
           else ReceiveLength(q[|header|..], |header| != headerSize, budget)
  {
  }

  /** The length stage, once its read completes: the body stage with the length read, or with 0 after a short read. */
  lemma ReceiveLengthStage(q: seq<byte>, flagged: bool, budget: Option<nat>)
    requires ReadAllowed(budget, 1)
    ensures ReceiveLength(q, flagged, budget)
         == if |Take(q, 1)| == 1 then ReceiveBody(q[0], q[1..], flagged, budget) else ReceiveBody(0, q, true, budget)
  {
  }

  /** The body stage, once its read of `len + 2` bytes completes. */
  lemma ReceiveBodyStage(len: byte, q: seq<byte>, flagged: bool, budget: Option<nat>)
    requires ReadAllowed(budget, 2)
    ensures var n, buffer := len as int + 2, Take(q, len as int + 2);
      ReceiveBody(len, q, flagged, budget)
        == if |buffer| != n then Reception(ShortBody, true, q[|buffer|..], 3)
           else if !ChecksumMatches(len, buffer[..n - 1], buffer[n - 1]) then Reception(BadChecksum, flagged, q[|buffer|..], 3)
           else Reception(Accepted(buffer[1..n - 1]), flagged, q[|buffer|..], 3)
  {
  }

  /** The body stage accepts exactly a full body whose last byte is `len` XOR the rest, when the read completes. */
  lemma ReceiveBodyAccepts(len: byte, q: seq<byte>, flagged: bool, budget: Option<nat>)
    requires ReadAllowed(budget, 1)
    ensures var r, n := ReceiveBody(len, q, flagged, budget), len as int;
      r.verdict.Accepted? <==> ReadAllowed(budget, 2) && |q| >= n + 2 && ChecksumMatches(len, q[..n + 1], q[n + 1])
  {
    var n := len as int;
    if |q| >= n + 2 {
      assert Take(q, n + 2)[..n + 1] == q[..n + 1];
    }
  }

  /** What the body stage delivers when it accepts: the payload after the id echo, and the unread rest. */
  lemma ReceiveBodyDelivers(len: byte, q: seq<byte>, flagged: bool, budget: Option<nat>)
    requires ReadAllowed(budget, 1)
    ensures var r, n := ReceiveBody(len, q, flagged, budget), len as int;
      r.verdict.Accepted? ==>
        |q| >= n + 2 && r.verdict.payload == q[1..n + 1] && r.rest == q[n + 2..] && r.demote == flagged
  {
  }

  /** Once a full matching header and the length byte have been read, the rest is the body stage. */
  lemma ReceiveAfterHeader(receiveHeader: seq<byte>, q: seq<byte>, budget: Option<nat>)
    requires |q| > |receiveHeader| && q[..|receiveHeader|] == receiveHeader
    requires ReadAllowed(budget, 1)
    ensures Receive(receiveHeader, |receiveHeader|, q, budget)
         == ReceiveBody(q[|receiveHeader|], q[|receiveHeader| + 1..], false, budget)
  {
    var h := |receiveHeader|;
    assert Take(q, h) == receiveHeader;
    assert Take(q[h..], 1) == [q[h]];
    assert q[h..][1..] == q[h + 1..];
  }

  /**
   * A well-formed response at the head of `q`: the header, a length byte
   * `len`, then a body of at least `len + 2` bytes whose byte at `len + 1` is
   * `len` XOR the `len + 1` bytes before it (id echo and payload).
   */
  predicate WellFormedAt(receiveHeader: seq<byte>, q: seq<byte>)
  {
    var h := |receiveHeader|;
    && |q| > h
    && q[..h] == receiveHeader
    && var len, body := q[h], q[h + 1..];
       && |body| >= len as int + 2
       && ChecksumMatches(len, body[..len as int + 1], body[len as int + 1])
  }

  /**
   * A response is accepted exactly when all three reads complete and a
   * well-formed frame heads the queue, whatever its id echo.
   */
  lemma ReceiveAccepts(receiveHeader: seq<byte>, q: seq<byte>, budget: Option<nat>)
    ensures var r := Receive(receiveHeader, |receiveHeader|, q, budget);
      r.verdict.Accepted? <==> ReadAllowed(budget, 2) && WellFormedAt(receiveHeader, q)
  {
    var h := |receiveHeader|;
    if ReadAllowed(budget, 2) && |q| > h && q[..h] == receiveHeader {
      AcceptsAfterHeader(receiveHeader, q, budget);
    }
  }

  /** After a matching header and with all reads completing, acceptance is the body stage's. */
  lemma AcceptsAfterHeader(receiveHeader: seq<byte>, q: seq<byte>, budget: Option<nat>)
    requires ReadAllowed(budget, 2) && |q| > |receiveHeader| && q[..|receiveHeader|] == receiveHeader
    ensures Receive(receiveHeader, |receiveHeader|, q, budget).verdict.Accepted? <==> WellFormedAt(receiveHeader, q)
  {
    var h := |receiveHeader|;
    ReceiveAfterHeader(receiveHeader, q, budget);
    ReceiveBodyAccepts(q[h], q[h + 1..], false, budget);
  }

  /**
   * An accepted response delivers the `len` bytes after the id echo, leaves
   * the rest of the queue unread and does not flag the link.
   */
  lemma ReceiveDelivers(receiveHeader: seq<byte>, q: seq<byte>, budget: Option<nat>)
    ensures var r, h := Receive(receiveHeader, |receiveHeader|, q, budget), |receiveHeader|;
      r.verdict.Accepted? ==>
        var n := q[h] as int;
        && |q| >= h + 3 + n
        && r.verdict.payload == q[h + 2..h + 2 + n]
        && r.rest == q[h + 3 + n..]
        && !r.demote
  {
    if Receive(receiveHeader, |receiveHeader|, q, budget).verdict.Accepted? {
      AcceptedDelivers(receiveHeader, q, budget);
    }
  }

  lemma AcceptedDelivers(receiveHeader: seq<byte>, q: seq<byte>, budget: Option<nat>)
    requires Receive(receiveHeader, |receiveHeader|, q, budget).verdict.Accepted?
    ensures var r, h := Receive(receiveHeader, |receiveHeader|, q, budget), |receiveHeader|;
      var n := q[h] as int;
      && |q| >= h + 3 + n
      && r.verdict.payload == q[h + 2..h + 2 + n]
      && r.rest == q[h + 3 + n..]
      && !r.demote
  {
    var h := |receiveHeader|;
    assert ReadAllowed(budget, 1);
    ReceiveAfterHeader(receiveHeader, q, budget);
    ReceiveBodyDelivers(q[h], q[h + 1..], false, budget);
    SuffixSlices(q, h + 1, q[h] as int);
  }

  /** Slicing a suffix of `q` is slicing `q` at shifted positions. */
  lemma SuffixSlices(q: seq<byte>, i: nat, n: nat)
    requires i + n + 2 <= |q|
    ensures q[i..][1..n + 1] == q[i + 1..i + 1 + n] && q[i..][n + 2..] == q[i + n + 2..]
  {
  }

  /**
   * The link is flagged as lost exactly when a read raises, the header read
   * comes back short, or the body read does; a wrong header after a full read
   * and a wrong checksum are reported without flagging it.
   */
  lemma ReceiveDemotion(receiveHeader: seq<byte>, q: seq<byte>, budget: Option<nat>)
    ensures var r := Receive(receiveHeader, |receiveHeader|, q, budget);
      r.demote <==> r.verdict == ReadRaised || |q| < |receiveHeader| || r.verdict == ShortBody
    ensures var r := Receive(receiveHeader, |receiveHeader|, q, budget);
      ReadAllowed(budget, 0) ==> (r.verdict == BadHeader <==> Take(q, |receiveHeader|) != receiveHeader)
  {
    var h := |receiveHeader|;
    if ReadAllowed(budget, 1) && |q| > h && q[..h] == receiveHeader {
      ReceiveAfterHeader(receiveHeader, q, budget);
    } else if ReadAllowed(budget, 0) && |q| == h && q == receiveHeader {
      assert Take(q, h) == receiveHeader;
      assert q[h..] == [];
    }
  }

  /** The checksum of a frame is what the receiver compares against. */
  lemma ChecksumOfBody(id: byte, payload: seq<byte>)
    requires |payload| < 256
    ensures ChecksumMatches(|payload| as byte, [id] + payload, Checksum(id, payload))
  {
    assert [|payload| as byte, id] + payload == [|payload| as byte] + ([id] + payload);
    XorCons(|payload| as byte, [id] + payload);
  }

  /** The body stage accepts a correct body with its payload, whatever the id echo. */
  lemma ReceiveBodyRoundTrip(id: byte, payload: seq<byte>, tail: seq<byte>, budget: Option<nat>)
    requires |payload| <= 253 && ReadAllowed(budget, 2)
    ensures ReceiveBody(|payload| as byte, [id] + payload + [Checksum(id, payload)] + tail, false, budget)
         == Reception(Accepted(payload), false, tail, 3)
  {
    var n := |payload|;
    var q := [id] + payload + [Checksum(id, payload)] + tail;
    assert q[..n + 1] == [id] + payload;
    ChecksumOfBody(id, payload);
    ReceiveBodyAccepts(n as byte, q, false, budget);
    ReceiveBodyDelivers(n as byte, q, false, budget);
    assert q[1..n + 1] == payload;
    assert q[n + 2..] == tail;
  }

  /** A frame splits into its header, its length byte and the body stage's input. */
  lemma FrameSplit(header: seq<byte>, id: byte, payload: seq<byte>, tail: seq<byte>)
    requires |payload| < 256
    ensures var q, h := Frame(header, id, payload) + tail, |header|;
      && |q| > h && q[..h] == header && q[h] == |payload| as byte
      && q[h + 1..] == [id] + payload + [Checksum(id, payload)] + tail
  {
  }

  /**
   * Decoding undoes encoding: a frame built with the receive header, followed
   * by anything, is accepted with its payload whatever its id, and only the
   * frame is consumed.
   */
  lemma ReceiveRoundTrip(receiveHeader: seq<byte>, id: byte, payload: seq<byte>, tail: seq<byte>, budget: Option<nat>)
    requires |payload| <= 253 && ReadAllowed(budget, 2)
    ensures Receive(receiveHeader, |receiveHeader|, Frame(receiveHeader, id, payload) + tail, budget)
         == Reception(Accepted(payload), false, tail, 3)
  {
    FrameSplit(receiveHeader, id, payload, tail);
    ReceiveAfterHeader(receiveHeader, Frame(receiveHeader, id, payload) + tail, budget);
    ReceiveBodyRoundTrip(id, payload, tail, budget);
  }

  /** A single corrupted byte of a correct body fails the body stage's checksum. */
  lemma ReceiveBodyDetectsCorruption(id: byte, payload: seq<byte>, tail: seq<byte>, j: nat, b: byte, budget: Option<nat>)
    requires |payload| <= 253 && ReadAllowed(budget, 2)
    requires j < |payload| + 2
    requires b != ([id] + payload + [Checksum(id, payload)])[j]
    ensures ReceiveBody(|payload| as byte, ([id] + payload + [Checksum(id, payload)])[j := b] + tail, false, budget)
         == Reception(BadChecksum, false, tail, 3)
  {
    var n := |payload|;
    var body := [id] + payload;
    var good := body + [Checksum(id, payload)];
    var q := good[j := b] + tail;
    ChecksumOfBody(id, payload);
    ReceiveBodyAccepts(n as byte, q, false, budget);
    assert q[n + 2..] == tail;
    if j < n + 1 {
      assert q[..n + 1] == body[j := b];
      XorUpdate(body, j, b);
      XorInjective(n as byte, Xor(body[j := b]), Xor(body));
      assert q[n + 1] == Checksum(id, payload);
    } else {
      assert q[..n + 1] == body;
      assert q[n + 1] == b;
    }
  }

  /**
   * Any single corrupted byte among the id echo, the payload and the checksum
   * of a frame makes the read fail its checksum, without flagging the link.
   */
  lemma ReceiveDetectsCorruption(receiveHeader: seq<byte>, id: byte, payload: seq<byte>, tail: seq<byte>, k: nat, b: byte, budget: Option<nat>)
    requires |payload| <= 253 && ReadAllowed(budget, 2)
    requires |receiveHeader| < k <= |receiveHeader| + 2 + |payload|
    requires b != Frame(receiveHeader, id, payload)[k]
    ensures Receive(receiveHeader, |receiveHeader|, Frame(receiveHeader, id, payload)[k := b] + tail, budget)
         == Reception(BadChecksum, false, tail, 3)
  {
    var h := |receiveHeader|;
    var good := [id] + payload + [Checksum(id, payload)];
    var f := Frame(receiveHeader, id, payload);
    assert f == receiveHeader + [|payload| as byte] + good;
    var q := f[k := b] + tail;
    assert q[..h] == receiveHeader;
    assert q[h + 1..] == good[k - h - 1 := b] + tail;
    ReceiveAfterHeader(receiveHeader, q, budget);
    ReceiveBodyDetectsCorruption(id, payload, tail, k - h - 1, b, budget);
  }

  /**
   * Corruption of the length byte is not always caught: the frame with id 0
   * and data section `[0, b]`, its length byte changed from 2 to 0, makes the
   * parser read the two bytes `[0, 0]`, whose checksum matches, and accept an
   * empty data section.
   */
  lemma LengthCorruptionAccepted(receiveHeader: seq<byte>, b: byte)
    ensures var f := Frame(receiveHeader, 0, [0, b]);
      && f[|receiveHeader|] == 2
      && Receive(receiveHeader, |receiveHeader|, f[|receiveHeader| := 0], None).verdict == Accepted([])
  {
    var h := |receiveHeader|;
    var f := Frame(receiveHeader, 0, [0, b]);
    var q := f[h := 0];
    assert q == receiveHeader + [0, 0, 0, b, Checksum(0, [0, b])];
    assert q[..h] == receiveHeader;
    ReceiveAfterHeader(receiveHeader, q, None);
    assert q[h + 1..] == [0, 0, b, Checksum(0, [0, b])];
    ReceiveBodyStage(0, q[h + 1..], false, None);
    assert Take(q[h + 1..], 2) == [0, 0];
    XorPair(0, 0);
    XorLaws(0, 0, 0);
  }
}
