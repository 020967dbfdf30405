/** The newline-framed JSON reader of scripts/latency_trace_probe.py. A byte is the character with
    its code; parsing one line is a parameter, and so is what the socket and the clock do. */
module DaemonProbe {
  import opened Text
  import opened Json

  type Bytes = string

  /** One `recv`: bytes, an orderly close, or the socket's own timeout. */
  datatype Recv = Data(bytes: Bytes) | Closed | TimedOut

  datatype Error = DeadlineExceeded | SocketClosed | SocketTimeout | BadLine | SendFailed

  datatype Result<T> = Ok(value: T) | Err(error: Error)

  /** The bytes still to come. */
  function Flat(net: seq<Recv>): Bytes {
    if net == [] then [] else (if net[0].Data? then net[0].bytes else []) + Flat(net[1..])
  }

  /** Parses a line; `None` stands for an exception. */
  type Parser = Bytes -> Option<Json>

  predicate IsResponse(msg: Json, rid: Json) {
    msg.Obj? && Get(msg, "id") == rid && Get(msg, "type") == Str("response")
  }

  /** A line the command loop reads past. */
  predicate Skipped(parse: Parser, line: Bytes, rid: Json) {
    parse(line).Some? && parse(line).value.Obj? && !IsResponse(parse(line).value, rid)
  }

  /** Lines read past, none with a newline in it. */
  predicate Passed(parse: Parser, lines: seq<Bytes>, rid: Json) {
    forall k | 0 <= k < |lines| :: '\n' !in lines[k] && Skipped(parse, lines[k], rid)
  }

  predicate Delivers(r: Recv) { r.Data? && r.bytes != [] }

  /** After k receives that delivered bytes the next one failed: it timed out, for want of anything
      more to come if need be, or the other side had closed. */
  predicate FailsAt(before: seq<Recv>, k: nat, after: seq<Recv>, error: Error) {
    && k <= |before| && (forall i | 0 <= i < k :: Delivers(before[i]))
    && if k == |before| then after == [] && error == SocketTimeout
       else after == before[k + 1..] && !Delivers(before[k])
            && error == if before[k].TimedOut? then SocketTimeout else SocketClosed
  }

  /** Readings `from` to `to` of the clock are in time: the first one not past the deadline, the
      later ones, taken in front of a receive, before it. */
  predicate InTime(clock: nat -> int, from: nat, to: nat, deadline: int) {
    forall i: nat | from <= i < to :: if i == from then clock(i) <= deadline else clock(i) < deadline
  }

  lemma FailsLater(all: seq<Recv>, k: nat, before: seq<Recv>, after: seq<Recv>, error: Error)
    requires k <= |all| && before == all[k..] && (forall i | 0 <= i < k :: Delivers(all[i]))
    requires FailsAt(before, 0, after, error)
    ensures FailsAt(all, k, after, error)
  {
    if before != [] {
      DropDrop(all, k, 1);
    }
  }

  class Probe {
    const parse: Parser
    const clock: nat -> int  // the readings of the monotonic clock
    var buf: Bytes
    var deadline: Option<int>
    var net: seq<Recv>       // what the socket will deliver, in order
    var ticks: nat           // readings taken so far

    constructor (parse: Parser, clock: nat -> int, net: seq<Recv>)
      ensures this.parse == parse && this.clock == clock && this.net == net
      ensures buf == [] && deadline == None && ticks == 0
    {
      this.parse, this.clock, this.net := parse, clock, net;
      buf, deadline, ticks := [], None, 0;
    }

    /** Every byte not yet handed out in a line. */
    ghost function Pending(): Bytes
      reads this
    {
      buf + Flat(net)
    }

    method Now() returns (now: int)
      modifies this`ticks
      ensures now == clock(old(ticks)) && ticks == old(ticks) + 1
    {
      now := clock(ticks);
      ticks := ticks + 1;
    }

    /** One `recv`, appended to the buffer. */
    method Receive() returns (error: Option<Error>)
      modifies this`net, this`buf
      ensures Pending() == old(Pending())
      ensures error.None? ==> old(net) != [] && Delivers(old(net)[0]) && net == old(net)[1..]
      ensures error.Some? ==> buf == old(buf) && FailsAt(old(net), 0, net, error.value)
      ensures error.Some? ==> error.value.SocketClosed? || error.value.SocketTimeout?
    {
      if net == [] {
        return Some(SocketTimeout);
      }
      var next := net[0];
      net := net[1..];
      if next.TimedOut? {
        return Some(SocketTimeout);
      }
      if next.Closed? || next.bytes == [] {
        return Some(SocketClosed);
      }
      CatAssociates(buf, next.bytes, Flat(net));
      buf := buf + next.bytes;
      return None;
    }

    /** `self.buf.split(b"\n", 1)` */
    method TakeLine() returns (line: Bytes)
      requires '\n' in buf
      modifies this`buf
      ensures '\n' !in line && old(buf) == line + ['\n'] + buf
      ensures old(Pending()) == line + ['\n'] + Pending()
    {
      var n := RunLength(buf, c => c != '\n');
      assert n < |buf|;
      line := buf[..n];
      assert buf == line + ['\n'] + buf[n + 1..];
      CatAssociates(line + ['\n'], buf[n + 1..], Flat(net));
      buf := buf[n + 1..];
    }

    /** `line` is what was taken off the front, when `taken`. */
    method ReadLine() returns (r: Result<Json>, taken: bool, line: Bytes)
      modifies this
      ensures deadline == old(deadline) && old(ticks) <= ticks
      ensures taken ==> '\n' !in line && old(Pending()) == line + ['\n'] + Pending()
      ensures !taken ==> Pending() == old(Pending())
      ensures taken <==> r.Ok? || r.error == BadLine
      ensures r != Err(SendFailed)
      ensures taken ==> r == (if parse(line).Some? then Ok(parse(line).value) else Err(BadLine))
      ensures deadline.None? ==> r != Err(DeadlineExceeded) && ticks == old(ticks)
      ensures deadline.Some? && r != Err(DeadlineExceeded) ==>
                old(ticks) < ticks && InTime(clock, old(ticks), ticks, deadline.value)
      ensures deadline.Some? && r == Err(DeadlineExceeded) ==>
                old(ticks) < ticks && InTime(clock, old(ticks), ticks - 1, deadline.value)
                && !InTime(clock, old(ticks), ticks, deadline.value)
      ensures r.Err? && (r.error.SocketClosed? || r.error.SocketTimeout?) ==>
                '\n' !in buf && exists k :: FailsAt(old(net), k, net, r.error)
    {
      ghost var k: nat := 0;
      taken, line := false, [];
      if deadline.Some? {
        var now := Now();
        if now > deadline.value {
          return Err(DeadlineExceeded), taken, line;
        }
      }
      while '\n' !in buf
        invariant Pending() == old(Pending()) && deadline == old(deadline)
        invariant if deadline.None? then ticks == old(ticks)
                  else old(ticks) < ticks && InTime(clock, old(ticks), ticks, deadline.value)
        invariant k <= |old(net)| && net == old(net)[k..]
        invariant forall i | 0 <= i < k :: Delivers(old(net)[i])
        decreases |net|
      {
        if deadline.Some? {
          var now := Now();
          if deadline.value - now <= 0 {
            return Err(DeadlineExceeded), taken, line;
          }
        }
        ghost var before := net;
        var error := Receive();
        if error.Some? {
          FailsLater(old(net), k, before, net, error.value);
          return Err(error.value), taken, line;
        }
        DropDrop(old(net), k, 1);
        k := k + 1;
      }
      taken := true;
      line := TakeLine();
      r := if parse(line).Some? then Ok(parse(line).value) else Err(BadLine);
    }

    /** What a command leaves when it stops at its last line, or without one. */
    predicate Stops(r: Result<Json>, lines: seq<Bytes>, rid: Json)
      reads this
    {
      var n := |lines| - 1;
      match r
      case Ok(msg) =>
        && n >= 0 && Passed(parse, lines[..n], rid) && '\n' !in lines[n]
        && parse(lines[n]) == Some(msg) && msg.Obj? && Get(msg, "id") == rid && Get(msg, "type") == Str("response")
      case Err(BadLine) =>
        && n >= 0 && Passed(parse, lines[..n], rid) && '\n' !in lines[n]
        && (parse(lines[n]).None? || !parse(lines[n]).value.Obj?)
      case Err(error) =>
        Passed(parse, lines, rid) && (error.SocketClosed? || error.SocketTimeout? ==> '\n' !in buf)
    }

    /** One more line of the reply: `again` when it was none to stop at. */
    method NextLine(rid: Json, lines: seq<Bytes>) returns (r: Result<Json>, lines': seq<Bytes>, again: bool)
      requires deadline.Some? && Passed(parse, lines, rid)
      modifies this
      ensures deadline == old(deadline) && old(ticks) <= ticks
      ensures Framed(lines) + old(Pending()) == Framed(lines') + Pending()
      ensures again ==> Passed(parse, lines', rid) && |Pending()| < |old(Pending())|
      ensures !again ==> r != Err(SendFailed) && Stops(r, lines', rid)
      ensures again ==> r != Err(DeadlineExceeded)
      ensures (r == Err(DeadlineExceeded)) == !InTime(clock, old(ticks), ticks, deadline.value)
      ensures r == Err(DeadlineExceeded) ==> ticks > 0 && clock(ticks - 1) >= deadline.value
    {
      var taken, line;
      r, taken, line := ReadLine();
      lines', again := lines, false;
      if taken {
        CatAssociates(Framed(lines), line + ['\n'], Pending());
        lines' := lines + [line];
        assert lines'[..|lines|] == lines;
      }
      if r.Err? {
        return;
      }
      if !r.value.Obj? {
        r := Err(BadLine);
        return;
      }
      again := !(Get(r.value, "id") == rid && Get(r.value, "type") == Str("response"));
    }

    /** One command: `delivered` says whether sending it succeeded. */
    method Command(rid: Json, timeout: int, delivered: bool) returns (r: Result<Json>, lines: seq<Bytes>)
      modifies this
      ensures deadline == None <==> delivered
      ensures !delivered ==> deadline == Some(clock(old(ticks)) + timeout)
      ensures old(Pending()) == Framed(lines) + Pending()
      ensures Stops(r, lines, rid)
      ensures r == Err(SendFailed) <==> !delivered
      ensures r == Err(DeadlineExceeded) ==> ticks > 0 && clock(ticks - 1) >= clock(old(ticks)) + timeout
      ensures r != Err(DeadlineExceeded) ==>
                forall i: nat | old(ticks) < i < ticks :: clock(i) <= clock(old(ticks)) + timeout
    {
      var now := Now();
      deadline := Some(now + timeout);
      lines := [];
      assert Framed(lines) == [] && [] + Pending() == Pending();
      if !delivered {
        return Err(SendFailed), lines;
      }
      var again := true;
      r := Err(SendFailed);
      while again
        invariant deadline == Some(now + timeout) && ticks > old(ticks)
        invariant r == Err(DeadlineExceeded) || forall i: nat | old(ticks) < i < ticks :: clock(i) <= now + timeout
        invariant r == Err(DeadlineExceeded) ==> !again && clock(ticks - 1) >= now + timeout
        invariant old(Pending()) == Framed(lines) + Pending()
        invariant if again then Passed(parse, lines, rid) else r != Err(SendFailed) && Stops(r, lines, rid)
        decreases again, |Pending()|
      {
        r, lines, again := NextLine(rid, lines);
      }
      deadline := None;
    }

    method Handshake(timeout: int) returns (r: Result<Json>, taken: bool, line: Bytes)
      modifies this
      ensures deadline == None
      ensures taken ==> '\n' !in line && old(Pending()) == line + ['\n'] + Pending()
      ensures !taken ==> Pending() == old(Pending())
      ensures taken <==> r.Ok? || r.error == BadLine
      ensures taken ==> r == (if parse(line).Some? then Ok(parse(line).value) else Err(BadLine))
      ensures r != Err(SendFailed)
      ensures var limit := clock(old(ticks)) + timeout;
              r == Err(DeadlineExceeded) <==> !InTime(clock, old(ticks) + 1, ticks, limit)
      ensures r.Err? && (r.error.SocketClosed? || r.error.SocketTimeout?) ==>
                '\n' !in buf && exists k :: FailsAt(old(net), k, net, r.error)
    {
      var now := Now();
      deadline := Some(now + timeout);
      r, taken, line := ReadLine();
      deadline := None;
    }
  }

  // ----- lines do not depend on how the bytes arrived

  /** Lines as the sender wrote them. */
  function Framed(lines: seq<Bytes>): Bytes {
    if lines == [] then [] else Framed(lines[..|lines| - 1]) + (lines[|lines| - 1] + ['\n'])
  }

  lemma {:induction false} FramedFront(lines: seq<Bytes>)
    requires lines != []
    ensures Framed(lines) == lines[0] + ['\n'] + Framed(lines[1..])
  {
    if |lines| == 1 {
      assert Framed(lines[..0]) == [] && Framed(lines[1..]) == [];
    } else {
      var front, last := lines[..|lines| - 1], lines[|lines| - 1];
      FramedFront(front);
      assert lines[1..][..|lines| - 2] == front[1..];
      assert lines[1..][|lines| - 2] == last;
      CatAssociates(lines[0] + ['\n'], Framed(front[1..]), last + ['\n']);
    }
  }

  /** A stream is cut into its first lines in one way only: whatever the split into receives,
      a reader that took k lines took these k lines and has this left. */
  lemma {:induction false} LinesAreDetermined(a: seq<Bytes>, restA: Bytes, b: seq<Bytes>, restB: Bytes)
    requires NoNewlines(a) && NoNewlines(b) && |a| == |b|
    requires Framed(a) + restA == Framed(b) + restB
    ensures a == b && restA == restB
  {
    if a == [] {
      assert [] + restA == restA && [] + restB == restB;
    } else {
      FramedFront(a);
      FramedFront(b);
      CatAssociates(a[0] + ['\n'], Framed(a[1..]), restA);
      CatAssociates(b[0] + ['\n'], Framed(b[1..]), restB);
      CutIsUnique(a[0], Framed(a[1..]) + restA, b[0], Framed(b[1..]) + restB, '\n');
      LinesAreDetermined(a[1..], restA, b[1..], restB);
      assert a == [a[0]] + a[1..] && b == [b[0]] + b[1..];
    }
  }

  /** The response to request `rid`. */
  predicate Answered(parse: Parser, line: Bytes, rid: Json) {
    && parse(line).Some? && parse(line).value.Obj?
    && Get(parse(line).value, "id") == rid && Get(parse(line).value, "type") == Str("response")
  }

  /** Two successful commands over the same stream, split differently, return the same response:
      the first one with the requested id. */
  lemma FirstResponse(parse: Parser, rid: Json, a: seq<Bytes>, restA: Bytes, b: seq<Bytes>, restB: Bytes)
    requires NoNewlines(a) && NoNewlines(b) && a != [] && b != []
    requires Framed(a) + restA == Framed(b) + restB
    requires Passed(parse, a[..|a| - 1], rid) && Passed(parse, b[..|b| - 1], rid)
    requires Answered(parse, a[|a| - 1], rid) && Answered(parse, b[|b| - 1], rid)
    ensures a == b && restA == restB
  {
    if |a| <= |b| {
      ShorterIsPrefix(parse, rid, a, restA, b, restB);
    } else {
      ShorterIsPrefix(parse, rid, b, restB, a, restA);
    }
  }

  lemma {:induction false} FramedCat(a: seq<Bytes>, b: seq<Bytes>)
    ensures Framed(a + b) == Framed(a) + Framed(b)
  {
    if b == [] {
      assert a + b == a;
    } else {
      var front, last := b[..|b| - 1], b[|b| - 1];
      FramedCat(a, front);
      CatAssociates(a, front, [last]);
      assert b == front + [last];
      CatAssociates(Framed(a), Framed(front), last + ['\n']);
    }
  }

  /** The first lines of a longer reading are a shorter one. */
  lemma PrefixLines(a: seq<Bytes>, restA: Bytes, b: seq<Bytes>, restB: Bytes)
    requires NoNewlines(a) && NoNewlines(b) && |a| <= |b|
    requires Framed(a) + restA == Framed(b) + restB
    ensures a == b[..|a|] && restA == Framed(b[|a|..]) + restB
  {
    var x, y := b[..|a|], b[|a|..];
    assert b == x + y;
    FramedCat(x, y);
    CatAssociates(Framed(x), Framed(y), restB);
    LinesAreDetermined(a, restA, x, Framed(y) + restB);
  }

  lemma ShorterIsPrefix(parse: Parser, rid: Json, a: seq<Bytes>, restA: Bytes, b: seq<Bytes>, restB: Bytes)
    requires NoNewlines(a) && NoNewlines(b) && a != [] && |a| <= |b|
    requires Framed(a) + restA == Framed(b) + restB
    requires Passed(parse, b[..|b| - 1], rid) && Answered(parse, a[|a| - 1], rid)
    ensures a == b && restA == restB
  {
    PrefixLines(a, restA, b, restB);
    assert a[|a| - 1] == b[..|a|][|a| - 1] == b[|a| - 1];
    forall k | 0 <= k < |b| - 1
      ensures !Answered(parse, b[k], rid)
    {
      assert b[..|b| - 1][k] == b[k];
    }
    assert |a| == |b|;
    assert b[..|a|] == b && b[|a|..] == [] && [] + restB == restB;
  }
}
