/**
 * The transport of one verifier request: AccountLock's `spawn_verifier` writing into a pipe and the
 * verifier's `read_request` reading from it, as two processes whose steps interleave freely. A write
 * or read moves any number of bytes from one up to what is asked for, the pipe's buffer may have any
 * capacity, and bytes may also pass directly from writer to reader (so capacity zero is a rendezvous).
 */
module Pipe {
  import opened Bytes
  import opened Protocol
  import Req = RequestCodec

  // ----- The reader -----

  datatype Child =
    | ReadingHeader(header: Bytes)
    | ReadingBody(header: Bytes, total: nat, body: Bytes)
    | AtEnd(request: Bytes)    // everything announced has arrived; one more read must find the end
    | Accepted(request: Bytes) // left `read_request` with success
    | Refused                  // left it with MALFORMED_REQUEST

  function FirstState(): Child {
    ReadingHeader([])
  }

  predicate Exited(c: Child) {
    c.Accepted? || c.Refused?
  }

  /** How many bytes the child's pending read asks for. */
  function Wanted(c: Child): nat {
    match c
    case ReadingHeader(header) => if |header| < REQUEST_HEADER_LEN then REQUEST_HEADER_LEN - |header| else 0
    case ReadingBody(_, total, body) =>
      if REQUEST_HEADER_LEN + |body| < total then total - REQUEST_HEADER_LEN - |body| else 0
    case AtEnd(_) => 1
    case _ => 0
  }

  /** The total length a header announces. */
  function Announced(header: Bytes): nat
    requires |header| >= REQUEST_HEADER_LEN
  {
    REQUEST_HEADER_LEN + U32At(header, 80) + U32At(header, 84)
  }

  function AfterHeader(header: Bytes): Child
    requires |header| == REQUEST_HEADER_LEN
  {
    var total := Announced(header);
    if total > MAX_REQUEST_LEN then Refused
    else if total == REQUEST_HEADER_LEN then AtEnd(header)
    else ReadingBody(header, total, [])
  }

  /** The child after a read that returned `chunk`. */
  function Receive(c: Child, chunk: Bytes): Child
    requires 0 < |chunk| <= Wanted(c)
  {
    match c
    case ReadingHeader(header) =>
      var read := header + chunk;
      if |read| == REQUEST_HEADER_LEN then AfterHeader(read) else ReadingHeader(read)
    case ReadingBody(header, total, body) =>
      var read := body + chunk;
      if REQUEST_HEADER_LEN + |read| == total then AtEnd(header + read) else ReadingBody(header, total, read)
    case _ => Refused // the extra read found a byte
  }

  /** The child after a read that found the end of the stream. */
  function ReceiveEnd(c: Child): Child {
    if c.AtEnd? then Accepted(c.request) else Refused
  }

  // ----- Both processes -----

  datatype Parent =
    | Writing(offset: nat)
    | Waiting          // write end closed
    | Failed           // a write was refused: VerifierFailure
    | Done(code: int)  // the child's exit code

  const MALFORMED_REQUEST: int := 2

  /** `verdict` is the exit code of the rest of the verifier on a request it has read. */
  datatype Setting = Setting(request: Bytes, capacity: nat, verdict: Bytes -> int)

  /** `read` is every byte the child has read so far. */
  datatype Config = Config(parent: Parent, buffer: Bytes, child: Child, read: Bytes)

  function Initial(): Config {
    Config(Writing(0), [], FirstState(), [])
  }

  function ExitCode(s: Setting, c: Child): int {
    if c.Accepted? then s.verdict(c.request) else MALFORMED_REQUEST
  }

  datatype Action =
    | Write(n: nat)
    | WriteRefused
    | Close
    | Wait
    | Handoff(n: nat)
    | Read(n: nat)
    | ReadEnd

  predicate Enabled(s: Setting, c: Config, a: Action) {
    match a
    case Write(n) =>
      && c.parent.Writing? && !Exited(c.child)
      && 0 < n && c.parent.offset + n <= |s.request| && |c.buffer| + n <= s.capacity
    case WriteRefused => c.parent.Writing? && c.parent.offset < |s.request| && Exited(c.child)
    case Close => c.parent.Writing? && c.parent.offset == |s.request|
    case Wait => c.parent.Waiting? && Exited(c.child)
    case Handoff(n) =>
      && c.parent.Writing? && c.buffer == []
      && 0 < n <= Wanted(c.child) && c.parent.offset + n <= |s.request|
    case Read(n) => 0 < n <= Wanted(c.child) && n <= |c.buffer|
    case ReadEnd => c.parent.Waiting? && c.buffer == [] && !Exited(c.child)
  }

  function Next(s: Setting, c: Config, a: Action): Config
    requires Enabled(s, c, a)
  {
    match a
    case Write(n) =>
      var o := c.parent.offset;
      c.(parent := Writing(o + n), buffer := c.buffer + s.request[o..o + n])
    case WriteRefused => c.(parent := Failed)
    case Close => c.(parent := Waiting)
    case Wait => c.(parent := Done(ExitCode(s, c.child)))
    case Handoff(n) =>
      var o := c.parent.offset;
      var chunk := s.request[o..o + n];
      c.(parent := Writing(o + n), child := Receive(c.child, chunk), read := c.read + chunk)
    case Read(n) =>
      c.(buffer := c.buffer[n..], child := Receive(c.child, c.buffer[..n]), read := c.read + c.buffer[..n])
    case ReadEnd => c.(child := ReceiveEnd(c.child))
  }

  predicate Final(c: Config) {
    c.parent.Failed? || c.parent.Done?
  }

  // ----- The child's state is a function of the bytes read, whatever the chunks were -----

  function ChildOn(read: Bytes): Child {
    if |read| < REQUEST_HEADER_LEN then ReadingHeader(read)
    else
      var header := read[..REQUEST_HEADER_LEN];
      var total := Announced(header);
      if total > MAX_REQUEST_LEN || |read| > total then Refused
      else if |read| == total then AtEnd(read)
      else ReadingBody(header, total, read[REQUEST_HEADER_LEN..])
  }

  lemma ChunksDoNotMatter(read: Bytes, chunk: Bytes)
    requires 0 < |chunk| <= Wanted(ChildOn(read))
    ensures Receive(ChildOn(read), chunk) == ChildOn(read + chunk)
  {
    var all := read + chunk;
    if |read| < REQUEST_HEADER_LEN {
      if |all| == REQUEST_HEADER_LEN {
        assert all[..REQUEST_HEADER_LEN] == all;
      }
    } else {
      assert all[..REQUEST_HEADER_LEN] == read[..REQUEST_HEADER_LEN];
      assert all[REQUEST_HEADER_LEN..] == read[REQUEST_HEADER_LEN..] + chunk;
      assert all == all[..REQUEST_HEADER_LEN] + all[REQUEST_HEADER_LEN..];
    }
  }

  // ----- The invariant -----

  function Sent(s: Setting, p: Parent): nat {
    if p.Writing? then p.offset else |s.request|
  }

  /** Bytes read plus bytes in the pipe are always what has been sent of the request. */
  predicate Inv(s: Setting, c: Config) {
    && Sent(s, c.parent) <= |s.request|
    && (!c.parent.Failed? ==> c.read + c.buffer == s.request[..Sent(s, c.parent)])
    && c.read + c.buffer <= s.request
    && (|| c.child == ChildOn(c.read)
        || (&& (c.parent.Waiting? || c.parent.Done?) && c.buffer == [] && !Exited(ChildOn(c.read))
            && c.child == ReceiveEnd(ChildOn(c.read))))
    && (Final(c) ==> Exited(c.child))
    && (c.parent.Done? ==> c.parent.code == ExitCode(s, c.child))
    && (c.parent.Failed? ==> c.child.Refused?)
  }

  lemma InitialInv(s: Setting)
    ensures Inv(s, Initial())
  {
  }

  lemma WriteKeepsInv(s: Setting, c: Config, n: nat)
    requires Inv(s, c) && Enabled(s, c, Write(n))
    ensures Inv(s, Next(s, c, Write(n)))
  {
    hide ChildOn;
    var o := c.parent.offset;
    assert s.request[..o + n] == s.request[..o] + s.request[o..o + n];
    assert c.read + (c.buffer + s.request[o..o + n]) == c.read + c.buffer + s.request[o..o + n];
  }

  lemma ReadKeepsInv(s: Setting, c: Config, a: Action)
    requires a.Handoff? || a.Read?
    requires Inv(s, c) && Enabled(s, c, a)
    ensures Inv(s, Next(s, c, a))
  {
    hide ChildOn;
    hide Receive;
    assert !Exited(c.child);
    if a.Handoff? {
      var o := c.parent.offset;
      var chunk := s.request[o..o + a.n];
      assert s.request[..o + a.n] == s.request[..o] + chunk;
      assert c.read + [] == c.read && c.read + chunk + [] == c.read + chunk;
      ChunksDoNotMatter(c.read, chunk);
    } else {
      assert c.read + c.buffer[..a.n] + c.buffer[a.n..] == c.read + c.buffer;
      ChunksDoNotMatter(c.read, c.buffer[..a.n]);
    }
  }

  lemma NextKeepsInv(s: Setting, c: Config, a: Action)
    requires Inv(s, c) && Enabled(s, c, a)
    ensures Inv(s, Next(s, c, a))
  {
    match a
    case Write(n) => WriteKeepsInv(s, c, n);
    case Handoff(_) => ReadKeepsInv(s, c, a);
    case Read(_) => ReadKeepsInv(s, c, a);
    case _ =>
      hide ChildOn;
      assert s.request[..|s.request|] == s.request;
  }

  // ----- What the invariant gives -----

  /** A byte string that announces exactly its own length, within the limit. */
  predicate Complete(request: Bytes) {
    |request| >= REQUEST_HEADER_LEN && |request| == Announced(request[..REQUEST_HEADER_LEN]) <= MAX_REQUEST_LEN
  }

  /** A child that succeeds holds exactly the parent's request; missing or trailing bytes are never accepted. */
  lemma AcceptedIsTheRequest(s: Setting, c: Config)
    requires Inv(s, c) && c.child.Accepted?
    ensures c.child.request == s.request == c.read && Complete(s.request)
  {
    assert s.request[..|s.request|] == s.request;
    assert c.read + [] == c.read;
  }

  /** No prefix of a complete request makes the child refuse. */
  lemma PrefixIsNotRefused(request: Bytes, read: Bytes)
    requires Complete(request) && read <= request
    ensures !ChildOn(read).Refused?
    ensures ChildOn(read).AtEnd? <==> read == request
  {
    if |read| >= REQUEST_HEADER_LEN {
      assert read[..REQUEST_HEADER_LEN] == request[..REQUEST_HEADER_LEN];
    }
  }

  lemma CompleteIsNotRefused(s: Setting, c: Config)
    requires Inv(s, c) && Complete(s.request)
    ensures !c.child.Refused? && !c.parent.Failed?
  {
    hide ChildOn;
    assert s.request[..|s.request|] == s.request;
    assert c.read + [] == c.read;
    assert c.read <= s.request;
    PrefixIsNotRefused(s.request, c.read);
  }

  /** Nothing is ever stuck: until the parent has its result, some process can move. */
  lemma SomeActionIsEnabled(s: Setting, c: Config)
    requires Inv(s, c) && !Final(c)
    ensures exists a :: Enabled(s, c, a)
  {
    if c.parent.Waiting? {
      if Exited(c.child) {
        assert Enabled(s, c, Wait);
      } else if c.buffer == [] {
        assert Enabled(s, c, ReadEnd);
      } else {
        ChildWants(c.read);
        assert Enabled(s, c, Read(1));
      }
    } else if c.parent.offset == |s.request| {
      assert Enabled(s, c, Close);
    } else if Exited(c.child) {
      assert Enabled(s, c, WriteRefused);
    } else {
      ChildWants(c.read);
      assert if c.buffer == [] then Enabled(s, c, Handoff(1)) else Enabled(s, c, Read(1));
    }
  }

  lemma ChildWants(read: Bytes)
    ensures Exited(ChildOn(read)) || Wanted(ChildOn(read)) > 0
  {
  }

  /** Every action makes progress. */
  function Remaining(s: Setting, c: Config): int {
    (|s.request| - Sent(s, c.parent)) + (|s.request| - |c.read|)
    + (if c.parent.Writing? then 2 else if c.parent.Waiting? then 1 else 0) + (if Exited(c.child) then 0 else 1)
  }

  lemma EveryActionIsProgress(s: Setting, c: Config, a: Action)
    requires Inv(s, c) && Enabled(s, c, a)
    ensures 0 <= Remaining(s, Next(s, c, a)) < Remaining(s, c)
  {
    hide ChildOn;
    NextKeepsInv(s, c, a);
    assert |c.read + c.buffer| <= |s.request|;
    var c' := Next(s, c, a);
    assert |c'.read + c'.buffer| <= |s.request|;
  }

  // ----- Whole transfers -----

  ghost predicate AtRest(s: Setting, c: Config) {
    forall a :: !Enabled(s, c, a)
  }

  predicate IsTrace(s: Setting, cs: seq<Config>, acts: seq<Action>) {
    && |cs| == |acts| + 1
    && cs[0] == Initial()
    && forall k | 0 <= k < |acts| :: Enabled(s, cs[k], acts[k]) && cs[k + 1] == Next(s, cs[k], acts[k])
  }

  /** Every transfer stays within the invariant and is over after at most `2 * |request| + 3` actions. */
  lemma {:induction false} TraceKeepsInv(s: Setting, cs: seq<Config>, acts: seq<Action>)
    requires IsTrace(s, cs, acts)
    ensures Inv(s, cs[|acts|])
    ensures |acts| + Remaining(s, cs[|acts|]) <= 2 * |s.request| + 3 && 0 <= Remaining(s, cs[|acts|])
  {
    if acts == [] {
      InitialInv(s);
    } else {
      hide Inv;
      hide Next;
      hide Enabled;
      hide Remaining;
      var n := |acts| - 1;
      assert forall k | 0 <= k <= n :: cs[..n + 1][k] == cs[k];
      TraceKeepsInv(s, cs[..n + 1], acts[..n]);
      NextKeepsInv(s, cs[n], acts[n]);
      EveryActionIsProgress(s, cs[n], acts[n]);
    }
  }

  /**
   * However the two processes interleave and however the bytes are chunked: a transfer that has come
   * to rest is over, a complete request has been received exactly and the parent holds the verdict on
   * it, and any other byte string has been refused.
   */
  lemma TransferIsExact(s: Setting, cs: seq<Config>, acts: seq<Action>)
    requires IsTrace(s, cs, acts)
    requires AtRest(s, cs[|acts|])
    ensures var c := cs[|acts|];
            if Complete(s.request)
            then c.child == Accepted(s.request) && c.parent == Done(s.verdict(s.request))
            else c.child.Refused? && (c.parent.Failed? || c.parent == Done(MALFORMED_REQUEST))
  {
    var c := cs[|acts|];
    TraceKeepsInv(s, cs, acts);
    if !Final(c) {
      SomeActionIsEnabled(s, c);
    }
    if c.child.Accepted? {
      AcceptedIsTheRequest(s, c);
    }
    if Complete(s.request) {
      CompleteIsNotRefused(s, c);
    }
  }

  /** Every transfer, wherever it has got to, can be brought to rest. */
  lemma {:induction false} TransferEnds(s: Setting, cs: seq<Config>, acts: seq<Action>)
    requires IsTrace(s, cs, acts)
    ensures exists cs', acts' :: IsTrace(s, cs', acts') && AtRest(s, cs'[|acts'|]) && cs <= cs'
    decreases Remaining(s, cs[|acts|])
  {
    hide Inv;
    hide Next;
    hide Enabled;
    hide Remaining;
    var c := cs[|acts|];
    if AtRest(s, c) {
      assert IsTrace(s, cs, acts) && cs <= cs;
    } else {
      var a :| Enabled(s, c, a);
      TraceKeepsInv(s, cs, acts);
      EveryActionIsProgress(s, c, a);
      TransferEnds(s, cs + [Next(s, c, a)], acts + [a]);
    }
  }

  /** Every request AccountLock encodes is complete, so its child reads exactly that request. */
  lemma EncodedRequestIsComplete(q: Req.VerifierRequest)
    requires Req.ValidRequest(q)
    ensures Complete(Req.RequestBytes(q))
  {
    hide Le;
    hide FromLe;
    hide Req.FixedBytes;
    var data, n := Req.RequestBytes(q), REQUEST_HEADER_LEN;
    assert data[..n] == Req.FixedBytes(q);
    Req.RequestFields(q, data[..n]);
  }
}
