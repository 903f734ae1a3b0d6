/** `tcp_socket::getln`: a reader that takes chunks of changing size yet stops
    exactly at the end of the line.  The stream is endless and `get(n)` delivers
    exactly the next n bytes; timeouts are left out. */
module LineReader {
  type Bytes = seq<int>

  datatype Line = BadArgs | Found(line: Bytes) | Overrun(seen: Bytes)

  /** The first n bytes of the stream after position p. */
  function Window(bytes: nat -> int, p: nat, n: nat): (s: Bytes)
    ensures |s| == n && forall i :: 0 <= i < n ==> s[i] == bytes(p + i)
  {
    seq(n, i requires 0 <= i < n => bytes(p + i))
  }

  /** The first n bytes after p end in eol. */
  predicate EndsAt(bytes: nat -> int, p: nat, eol: Bytes, n: nat) {
    |eol| <= n && Window(bytes, p + (n - |eol|), |eol|) == eol
  }

  /** n is the length of the shortest prefix that ends in eol. */
  ghost predicate IsLine(bytes: nat -> int, p: nat, eol: Bytes, n: nat) {
    EndsAt(bytes, p, eol, n) && forall m :: 0 <= m < n ==> !EndsAt(bytes, p, eol, m)
  }

  function Max(a: int, b: int): int { if a > b then a else b }

  /** The longest line that `getln` returns. */
  function Reach(eol: Bytes, maxlen: int): int { Max(maxlen, |eol| + 1) }

  lemma WindowSplit(bytes: nat -> int, p: nat, m: nat, n: nat)
    ensures Window(bytes, p, m + n) == Window(bytes, p, m) + Window(bytes, p + m, n)
  {
  }

  /** Where the delimiter's first character does not occur, no delimiter starts. */
  lemma NoneStarts(bytes: nat -> int, p: nat, eol: Bytes, seen: nat, m: nat)
    requires eol != [] && |eol| <= seen < m < seen + |eol|
    requires eol[0] !in Window(bytes, p, seen)[seen - (|eol| - 1)..]
    ensures !EndsAt(bytes, p, eol, m)
  {
    var first := m - |eol|;
    var tail := Window(bytes, p, seen)[seen - (|eol| - 1)..];
    var k := first - (seen - (|eol| - 1));
    assert tail[k] == bytes(p + first) && tail[k] in tail;
    assert Window(bytes, p + first, |eol|)[0] == bytes(p + first);
  }

  /** The comparison that the source makes on the tail of what it has read. */
  lemma TailIsEnd(bytes: nat -> int, p: nat, eol: Bytes, n: nat)
    requires |eol| <= n
    ensures Window(bytes, p, n)[n - |eol|..] == eol <==> EndsAt(bytes, p, eol, n)
  {
  }

  ghost predicate NoneBefore(bytes: nat -> int, p: nat, eol: Bytes, n: nat) {
    forall m: nat :: m < n ==> !EndsAt(bytes, p, eol, m)
  }

  /** How far the loop of `getln` may have read. */
  predicate InBounds(seen: nat, targetlen: nat, maxlen: int, done: bool, success: bool) {
    var reach := Max(maxlen, targetlen + 1);
    && targetlen <= seen
    && (done ==> 0 < maxlen <= seen && targetlen < seen)
    && (done || seen == targetlen || maxlen <= 0 || seen < maxlen)
    && (maxlen > 0 ==> seen <= reach + Max(0, targetlen - 2))
    && (success && maxlen > 0 ==> seen <= reach)
  }

  /** The line, if the delimiter comes at all, is returned exactly if it is not too long. */
  ghost predicate LengthDecides(bytes: nat -> int, p: nat, eol: Bytes, maxlen: int, found: bool) {
    forall n: nat :: IsLine(bytes, p, eol, n) ==> (found <==> maxlen <= 0 || n <= Reach(eol, maxlen))
  }

  lemma LoopDecides(bytes: nat -> int, p: nat, eol: Bytes, maxlen: int, seen: nat, done: bool, success: bool)
    requires (done || success) && NoneBefore(bytes, p, eol, seen)
    requires success <==> EndsAt(bytes, p, eol, seen)
    requires InBounds(seen, |eol|, maxlen, done, success)
    ensures LengthDecides(bytes, p, eol, maxlen, success)
    ensures if success then IsLine(bytes, p, eol, seen) else NoneBefore(bytes, p, eol, seen + 1)
  {
  }

  /** The invariant of the loop: what has been read so far, and how far it may go. */
  ghost predicate Reading(
      bytes: nat -> int, p: nat, eol: Bytes, maxlen: int, seen: nat, done: bool, success: bool, bound: int) {
    && (success <==> EndsAt(bytes, p, eol, seen))
    && NoneBefore(bytes, p, eol, seen)
    && InBounds(seen, |eol|, maxlen, done, success)
    && (maxlen <= 0 ==> bound >= 0 && EndsAt(bytes, p, eol, bound) && seen <= bound)
    && (maxlen > 0 ==> bound == Reach(eol, maxlen) + |eol|)
  }

  lemma ReadMore(bytes: nat -> int, p: nat, eol: Bytes, maxlen: int, seen: nat, bound: int,
                 longer: nat, done: bool, success: bool)
    requires eol != [] && Reading(bytes, p, eol, maxlen, seen, false, false, bound)
    requires seen < longer <= seen + Max(1, |eol| - 1)
    requires forall m: nat :: seen < m < longer ==> !EndsAt(bytes, p, eol, m)
    requires longer > seen + 1 ==> !EndsAt(bytes, p, eol, longer)
    requires success <==> EndsAt(bytes, p, eol, longer)
    requires done <==> maxlen > 0 && longer >= maxlen
    ensures Reading(bytes, p, eol, maxlen, longer, done, success, bound) && seen <= bound
  {
  }

  class Socket {
    const bytes: nat -> int
    var pos: nat

    constructor (bytes: nat -> int)
      ensures this.bytes == bytes && pos == 0
    {
      this.bytes, pos := bytes, 0;
    }

    method Get(n: nat) returns (s: Bytes)
      modifies this`pos
      ensures s == Window(bytes, old(pos), n) && pos == old(pos) + n
    {
      s := Window(bytes, pos, n);
      pos := pos + n;
    }

    /** The chunk that one iteration of `getln` appends: one byte, or just less than
        a delimiter when no delimiter starts nearby. */
    method NextChunk(eol: Bytes, returnme: Bytes, ghost start: nat) returns (longer: Bytes)
      requires 0 < |eol| <= |returnme| && pos == start + |returnme| && returnme == Window(bytes, start, |returnme|)
      modifies this`pos
      ensures pos == start + |longer| && longer == Window(bytes, start, |longer|)
      ensures |returnme| < |longer| <= |returnme| + Max(1, |eol| - 1)
      ensures forall m: nat :: |returnme| < m < |longer| ==> !EndsAt(bytes, start, eol, m)
      ensures |longer| > |returnme| + 1 ==> !EndsAt(bytes, start, eol, |longer|)
    {
      var searchlen := |eol| - 1;
      var getlen := 1;
      if searchlen > 1 {
        if eol[0] !in returnme[|returnme| - searchlen..] {
          getlen := searchlen;
          forall m: nat | |returnme| < m < |returnme| + |eol| ensures !EndsAt(bytes, start, eol, m) {
            NoneStarts(bytes, start, eol, |returnme|, m);
          }
        }
      }
      var chunk := Get(getlen);
      WindowSplit(bytes, start, |returnme|, getlen);
      longer := returnme + chunk;
    }

    /** One iteration of `getln`. */
    method ReadOn(eol: Bytes, maxlen: int, returnme: Bytes, ghost start: nat, ghost bound: int)
        returns (longer: Bytes, done: bool, success: bool)
      requires eol != [] && pos == start + |returnme| && returnme == Window(bytes, start, |returnme|)
      requires Reading(bytes, start, eol, maxlen, |returnme|, false, false, bound)
      modifies this`pos
      ensures pos == start + |longer| && longer == Window(bytes, start, |longer|)
      ensures |returnme| < |longer| && |returnme| <= bound
      ensures Reading(bytes, start, eol, maxlen, |longer|, done, success, bound)
    {
      var targetlen := |eol|;
      done, success := false, false;
      longer := NextChunk(eol, returnme, start);
      TailIsEnd(bytes, start, eol, |longer|);
      if |longer| >= targetlen {
        success := longer[|longer| - targetlen..] == eol;
      }
      if maxlen > 0 && |longer| >= maxlen {
        done := true;
      }
      ReadMore(bytes, start, eol, maxlen, |returnme|, bound, |longer|, done, success);
    }

    /** Without a limit (maxlen <= 0) the source returns only if the delimiter comes. */
    method GetLn(eol: Bytes, maxlen: int) returns (r: Line)
      requires eol != [] && maxlen <= 0 ==> exists n: nat :: EndsAt(bytes, pos, eol, n)
      modifies this`pos
      ensures r.BadArgs? <==> eol == []
      ensures r.BadArgs? ==> pos == old(pos)
      // A line is the shortest prefix that ends in eol, and the stream is left just after it.
      ensures r.Found? ==> IsLine(bytes, old(pos), eol, |r.line|) && r.line == Window(bytes, old(pos), |r.line|)
                           && pos == old(pos) + |r.line|
      // Whether it is returned depends on its length alone.
      ensures eol != [] ==> LengthDecides(bytes, old(pos), eol, maxlen, r.Found?)
      // An overrun has read at least maxlen bytes, little more, and no delimiter.
      ensures r.Overrun? ==>
        && r.seen == Window(bytes, old(pos), |r.seen|) && pos == old(pos) + |r.seen|
        && 0 < maxlen <= |r.seen| <= Reach(eol, maxlen) + Max(0, |eol| - 2)
        && NoneBefore(bytes, old(pos), eol, |r.seen| + 1)
    {
      if eol == [] {
        return BadArgs;
      }
      ghost var start := pos;
      ghost var bound: int := Reach(eol, maxlen) + |eol|;
      if maxlen <= 0 {
        bound :| 0 <= bound && EndsAt(bytes, pos, eol, bound);
      }
      var targetlen := |eol|;
      var done := false;
      var returnme := Get(targetlen);
      TailIsEnd(bytes, start, eol, targetlen);
      var success := returnme[|returnme| - targetlen..] == eol;
      while !done && !success
        invariant pos == start + |returnme| && returnme == Window(bytes, start, |returnme|)
        invariant Reading(bytes, start, eol, maxlen, |returnme|, done, success, bound)
        decreases bound - |returnme|
      {
        returnme, done, success := ReadOn(eol, maxlen, returnme, start, bound);
      }
      LoopDecides(bytes, start, eol, maxlen, |returnme|, done, success);
      if !success {
        return Overrun(returnme);
      }
      return Found(returnme);
    }
  }

  /** No line that `getln` would return is longer than the limit. */
  ghost predicate KeepsLimit(eol: Bytes, maxlen: int) {
    forall bytes: nat -> int, p: nat, n: nat :: IsLine(bytes, p, eol, n) && n <= Reach(eol, maxlen) ==> n <= maxlen
  }

  /** A byte that does not begin the delimiter, then the delimiter. */
  function LongLine(eol: Bytes): nat -> int
    requires eol != []
  {
    (i: nat) => if i == 0 then eol[0] + 1 else if i <= |eol| then eol[i - 1] else 0
  }

  lemma LongLineIsLine(eol: Bytes)
    requires eol != []
    ensures IsLine(LongLine(eol), 0, eol, |eol| + 1)
  {
    var bytes := LongLine(eol);
    assert Window(bytes, 1, |eol|) == eol;
    assert Window(bytes, 0, |eol|)[0] != eol[0];
  }

  /** The limit is kept exactly if it exceeds the delimiter's length: otherwise some
      stream has a line that is too long and is returned all the same. */
  lemma LimitIsKeptIff(eol: Bytes, maxlen: int)
    requires eol != [] && maxlen > 0
    ensures KeepsLimit(eol, maxlen) <==> maxlen > |eol|
  {
    if maxlen <= |eol| {
      LongLineIsLine(eol);
      assert Reach(eol, maxlen) == |eol| + 1;
    }
  }
}
