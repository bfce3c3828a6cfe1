/** Reading a remote object through one cached window, under a budget shared by
    every reader of the same operation. */
module RemoteReader {
  import opened Wrappers
  import opened Grid
  import opened Raster

  const WINDOW_BYTES: nat := 64 * 1024
  const MAX_RANGE_BYTES: nat := 2 * 1024 * 1024
  const MAX_OPERATION_REQUESTS: nat := 32
  const MAX_OPERATION_BYTES: nat := 8 * 1024 * 1024

  const I64_LIMIT: int := 0x8000_0000_0000_0000
  const U64_LIMIT: nat := 0x1_0000_0000_0000_0000

  type u64 = x: nat | x < U64_LIMIT
  type i64 = x: int | -I64_LIMIT <= x < I64_LIMIT

  /** Signed 64-bit arithmetic as the release build does it. */
  function WrapI64(x: int): i64 {
    var m := x % U64_LIMIT;
    if m < I64_LIMIT then m else m - U64_LIMIT
  }

  datatype RemoteError = BudgetExhausted | Transport | Protocol | Identity | Range | NegativeSeek

  // ---- The shared budget -------------------------------------------------

  function Total(grants: seq<nat>): nat {
    if grants == [] then 0 else Total(grants[..|grants| - 1]) + grants[|grants| - 1]
  }

  /** What is granted after these reservations. */
  predicate Grants(grants: seq<nat>, amount: nat, expired: bool) {
    !expired && |grants| < MAX_OPERATION_REQUESTS && Total(grants) + amount <= MAX_OPERATION_BYTES
  }

  /** One metadata or tile operation; `grants` are the reservations so far. */
  class Operation {
    var requests: nat
    var bytes: nat
    ghost var grants: seq<nat>

    ghost predicate Valid()
      reads this
    {
      && requests == |grants| <= MAX_OPERATION_REQUESTS
      && bytes == Total(grants) <= MAX_OPERATION_BYTES
    }

    constructor ()
      ensures Valid() && grants == []
    {
      requests, bytes, grants := 0, 0, [];
    }

    /** Grants a request while the deadline, the count and the bytes allow. */
    method Reserve(amount: nat, expired: bool) returns (ok: bool)
      requires Valid()
      modifies this
      ensures Valid()
      ensures ok <==> Grants(old(grants), amount, expired)
      ensures ok <==> !expired && |old(grants)| < 32 && Total(old(grants)) + amount <= 8388608
      ensures grants == if ok then old(grants) + [amount] else old(grants)
    {
      if expired || requests >= MAX_OPERATION_REQUESTS || bytes + amount > MAX_OPERATION_BYTES {
        return false;
      }
      requests := requests + 1;
      bytes := bytes + amount;
      grants := grants + [amount];
      return true;
    }
  }

  // ---- The object --------------------------------------------------------

  /** A brokered object of a known length, or the trusted one whose length only
      its responses tell. */
  datatype Source = RangeObject(length: nat) | Administrative

  /** A partial response: the range it says it is, the whole length, the body. */
  datatype Response = Response(first: nat, end: nat, total: nat, body: seq<byte>)

  /** What a range request answers at the time it is made. */
  type Server = (nat, nat) -> Result<Response, RemoteError>

  /** A body of the requested length carries the object's bytes. */
  ghost predicate Honest(server: Server, content: seq<byte>) {
    forall a: nat, b: nat {:trigger server(a, b)} :: a <= b <= |content| && server(a, b).Ok? && |server(a, b).value.body| == b - a ==>
      server(a, b).value.body == content[a..b]
  }

  /** The length and the bytes a source returns for a range; the trusted one
      accepts only a response to exactly this range. */
  function GetRange(source: Source, server: Server, a: nat, b: nat): Result<(nat, seq<byte>), RemoteError> {
    var response :- server(a, b);
    match source
    case RangeObject(length) => Ok((length, response.body))
    case Administrative =>
      if a < b && (response.first, response.end) == (a, b) && response.total >= b && |response.body| == b - a
      then Ok((response.total, response.body))
      else Err(Protocol)
  }

  function FetchLen(want: nat, remaining: nat): nat {
    Min(Min(Max(want, WINDOW_BYTES), MAX_RANGE_BYTES), remaining)
  }

  /** The source answers this range in full, for an object of this length. */
  predicate Delivers(source: Source, len: nat, server: Server, start: nat, count: nat) {
    var r := GetRange(source, server, start, start + count);
    r.Ok? && |r.value.1| == count && (source.Administrative? ==> r.value.0 == len)
  }

  /** A brokered object delivers with any body of the right length; the trusted
      source only with a response to exactly this range of an object of this
      length. */
  lemma DeliversIff(source: Source, len: nat, server: Server, start: nat, count: nat)
    requires 0 < count && start + count <= len
    ensures var r := server(start, start + count);
            Delivers(source, len, server, start, count) <==>
              && r.Ok? && |r.value.body| == count
              && (source.Administrative? ==> r.value.first == start && r.value.end == start + count && r.value.total == len)
  {
  }

  /** What a source returns: a body with the length that is known, or that the
      response tells if it is to exactly this range. */
  lemma GetRangeIs(source: Source, server: Server, a: nat, b: nat)
    requires a < b && server(a, b).Ok?
    ensures var response := server(a, b).value;
            && (source.RangeObject? ==> GetRange(source, server, a, b) == Ok((source.length, response.body)))
            && (source.Administrative? ==>
                  GetRange(source, server, a, b) ==
                  if response.first == a && response.end == b && b <= response.total && |response.body| == b - a
                  then Ok((response.total, response.body)) else Err(Protocol))
  {
  }

  /** Where a reader stands, and from where to where its window reaches. */
  datatype Cache = Cache(pos: nat, window: Option<(nat, nat)>)

  predicate Covered(c: Cache, want: nat) {
    c.window.Some? && var (start, end) := c.window.value; start <= c.pos && c.pos + want <= end
  }

  /** One read of one reader: how much is wanted, what the source answers and
      whether the deadline is over. */
  datatype Demand = Demand(want: nat, server: Server, expired: bool)

  /** Only the network can make the window cover this. */
  predicate Misses(len: nat, c: Cache, want: nat) { c.pos < len && !Covered(c, want) }

  /** Only the network can serve this read. */
  predicate NeedsFetch(len: nat, c: Cache, want: nat) { want > 0 && Misses(len, c, want) }

  function Fetch(len: nat, c: Cache, want: nat): nat
    requires c.pos <= len
  {
    FetchLen(want, len - c.pos)
  }

  /** The budget grants the request and the source answers it. */
  predicate Served(source: Source, len: nat, c: Cache, grants: seq<nat>, d: Demand)
    requires c.pos <= len
  {
    Grants(grants, Fetch(len, c, d.want), d.expired) && Delivers(source, len, d.server, c.pos, Fetch(len, c, d.want))
  }

  datatype Whence = Start(offset: u64) | End(delta: i64) | Current(delta: i64)

  /** The position asked for, in exact arithmetic. */
  function Target(len: nat, pos: nat, whence: Whence): int {
    match whence case Start(offset) => offset case End(delta) => len + delta case Current(delta) => pos + delta
  }

  /** Counted from the start, from the end, or from here. */
  lemma TargetIs(len: nat, pos: nat, offset: u64, delta: i64)
    ensures Target(len, pos, Start(offset)) == offset && Target(len, pos, End(delta)) == len + delta && Target(len, pos, Current(delta)) == pos + delta
  {
  }

  datatype Op = Read(demand: Demand) | Seek(whence: Whence)

  datatype Answer = Bytes(data: seq<byte>) | At(pos: nat) | Failed(error: RemoteError)

  /** A plain array's read: its next bytes, at least one before the end. */
  ghost predicate PlainRead(content: seq<byte>, pos: nat, want: nat, data: seq<byte>, pos': nat) {
    && |data| <= want && pos' == pos + |data|
    && (if pos < |content| then pos' <= |content| && data == content[pos..pos'] && (want > 0 ==> data != []) else data == [])
  }

  /** How much a read that succeeds delivers: all that is wanted, unless it has
      to be fetched; then up to the end or the largest range. */
  function Delivered(len: nat, c: Cache, want: nat): nat {
    if c.pos >= len then 0
    else if NeedsFetch(len, c, want) then Min(Min(want, MAX_RANGE_BYTES), len - c.pos)
    else want
  }

  /** What one request leaves behind: the window moves exactly if the request is
      served, and the budget is charged exactly if it is granted. */
  ghost predicate FetchStep(source: Source, len: nat, c: Cache, grants: seq<nat>, d: Demand, c': Cache, grants': seq<nat>)
    requires c.pos <= len
  {
    var f := Fetch(len, c, d.want);
    && c'.window == (if Served(source, len, c, grants, d) then Some((c.pos, c.pos + f)) else c.window)
    && grants' == grants + (if Grants(grants, f, d.expired) then [f] else [])
  }

  /** What a read leaves behind. */
  ghost predicate CacheStep(source: Source, len: nat, c: Cache, grants: seq<nat>, d: Demand, c': Cache, grants': seq<nat>) {
    if NeedsFetch(len, c, d.want) then FetchStep(source, len, c, grants, d, c', grants')
    else c'.window == c.window && grants' == grants
  }

  /** What the plain byte array allows as the answer to one call. A read yields
      its next bytes and fails exactly if only the network can serve it and the
      budget or the source does not; a seek goes where it says, exactly if that
      is a signed 64-bit position; a failed call leaves the position alone. */
  ghost predicate PlainStep(source: Source, content: seq<byte>, c: Cache, grants: seq<nat>, op: Op, answer: Answer, c': Cache, grants': seq<nat>) {
    var len := |content|;
    match op
    case Read(d) =>
      && CacheStep(source, len, c, grants, d, c', grants')
      && !answer.At?
      && (answer.Failed? <==> NeedsFetch(len, c, d.want) && !Served(source, len, c, grants, d))
      && (answer.Bytes? ==> PlainRead(content, c.pos, d.want, answer.data, c'.pos) && |answer.data| == Delivered(len, c, d.want))
      && (answer.Failed? ==> c'.pos == c.pos)
    case Seek(whence) =>
      && c'.window == c.window && grants' == grants
      && !answer.Bytes?
      && (answer.At? <==> 0 <= Target(len, c.pos, whence) < I64_LIMIT)
      && (answer.At? ==> answer.pos == c'.pos && c'.pos as int == Target(len, c.pos, whence))
      && (answer.Failed? ==> c'.pos == c.pos)
  }

  /** The next bytes out of a window that reaches past the position. */
  lemma WindowSlice(content: seq<byte>, start: nat, data: seq<byte>, pos: nat, count: nat, want: nat)
    requires start + |data| <= |content| && data == content[start..start + |data|]
    requires start <= pos && pos + count <= start + |data| && 0 < count <= want
    ensures PlainRead(content, pos, want, data[pos - start..pos - start + count], pos + count)
  {
    var a, b := data[pos - start..pos - start + count], content[pos..pos + count];
    forall i | 0 <= i < count ensures a[i] == b[i] {
      assert a[i] == data[pos - start + i];
    }
    assert a == b;
  }

  lemma NothingRead(content: seq<byte>, c: Cache, want: nat)
    requires want == 0 || c.pos >= |content|
    ensures PlainRead(content, c.pos, want, [], c.pos) && Delivered(|content|, c, want) == 0
  {
  }

  /** A fetch stays inside the object and holds what a read delivers. */
  lemma FetchLenFits(want: nat, remaining: nat)
    requires remaining > 0
    ensures 0 < FetchLen(want, remaining) <= remaining
    ensures Min(want, FetchLen(want, remaining)) == Min(Min(want, MAX_RANGE_BYTES), remaining)
  {
  }

  /** One request serves all small reads of the next 64 KiB, and asks for no more
      than 2 MiB. */
  lemma SmallReadsShareOneRequest(len: nat, c: Cache, want: nat, pos: nat, more: nat)
    requires NeedsFetch(len, c, want) && c.pos <= pos && pos + more <= Min(c.pos + 65536, len)
    ensures var f := Fetch(len, c, want);
            && f == Min(if want <= 65536 then 65536 else if want <= 2097152 then want else 2097152, len - c.pos) > 0
            && !NeedsFetch(len, Cache(pos, Some((c.pos, c.pos + f))), more)
  {
  }

  class HttpRangeReader {
    const len: nat
    var pos: nat
    var window: Option<(nat, seq<byte>)>
    const source: Source
    const operation: Operation
    ghost const content: seq<byte>

    ghost predicate Valid()
      reads this, operation
    {
      && operation.Valid()
      && len == |content| && 0 < len < I64_LIMIT && pos < I64_LIMIT
      && (window.Some? ==>
            var (start, data) := window.value;
            start + |data| <= len && data == content[start..start + |data|])
    }

    ghost function State(): Cache
      reads this
    {
      Cache(pos, if window.Some? then Some((window.value.0, window.value.0 + |window.value.1|)) else None)
    }

    /** A reader of an object whose length is known by now, with what opening
        it has already read. */
    constructor (source: Source, operation: Operation, len: nat, window: Option<(nat, seq<byte>)>, ghost content: seq<byte>)
      requires operation.Valid() && len == |content| && 0 < len < I64_LIMIT
      requires window.Some? ==> 0 < len && window.value == (0, content[..1])
      ensures Valid() && pos == 0 && this.window == window
      ensures this.source == source && this.operation == operation && this.content == content
    {
      this.source, this.len, this.operation, this.content := source, len, operation, content;
      pos, this.window := 0, window;
    }

    /** Asks for `fetchLen` bytes from the position on and makes them the window. */
    method FetchWindow(fetchLen: nat, server: Server, expired: bool) returns (r: Result<(), RemoteError>)
      requires Valid() && Honest(server, content) && pos + fetchLen <= len
      modifies this, operation
      ensures Valid() && pos == old(pos)
      ensures r.Ok? <==> Grants(old(operation.grants), fetchLen, expired) && Delivers(source, len, server, pos, fetchLen)
      ensures window == if r.Ok? then Some((pos, content[pos..pos + fetchLen])) else old(window)
      ensures operation.grants ==
              old(operation.grants) + (if Grants(old(operation.grants), fetchLen, expired) then [fetchLen] else [])
    {
      hide Grants, Total;
      var granted := operation.Reserve(fetchLen, expired);
      if !granted {
        return Err(BudgetExhausted);
      }
      var reply :- GetRange(source, server, pos, pos + fetchLen);
      var (total, bytes) := reply;
      if source.Administrative? && total != len {
        return Err(Identity);
      }
      if |bytes| != fetchLen {
        return Err(Protocol);
      }
      assert server(pos, pos + fetchLen).Ok?;
      window := Some((pos, bytes));
      return Ok(());
    }

    /** Makes the window cover the position, with one request at most; fails
        exactly if that request is needed and not granted or not answered. */
    method EnsureWindow(d: Demand) returns (r: Result<(), RemoteError>)
      requires Valid() && Honest(d.server, content)
      modifies this, operation
      ensures Valid() && pos == old(pos)
      ensures r.Err? <==> Misses(len, old(State()), d.want) && !Served(source, len, old(State()), old(operation.grants), d)
      ensures Misses(len, old(State()), d.want) ==> FetchStep(source, len, old(State()), old(operation.grants), d, State(), operation.grants)
      ensures !Misses(len, old(State()), d.want) ==> window == old(window) && operation.grants == old(operation.grants)
      ensures r.Ok? && d.want > 0 && pos < len ==>
                && window.Some? && window.value.0 <= pos < window.value.0 + |window.value.1|
                && Min(window.value.0 + |window.value.1| - pos, d.want) == Delivered(len, old(State()), d.want)
    {
      hide Grants, Total, FetchLen, GetRange;
      if pos >= len {
        return Ok(());
      }
      if window.Some? {
        var (start, data) := window.value;
        if pos >= start && pos + d.want <= start + |data| {
          return Ok(());
        }
      }
      FetchLenFits(d.want, len - pos);
      var fetched := FetchWindow(FetchLen(d.want, len - pos), d.server, d.expired);
      return fetched;
    }

    method Read(d: Demand) returns (r: Result<seq<byte>, RemoteError>)
      requires Valid() && Honest(d.server, content)
      modifies this, operation
      ensures Valid()
      ensures r.Err? <==> NeedsFetch(len, old(State()), d.want) && !Served(source, len, old(State()), old(operation.grants), d)
      ensures CacheStep(source, len, old(State()), old(operation.grants), d, State(), operation.grants)
      ensures r.Ok? ==> PlainRead(content, old(pos), d.want, r.value, pos) && |r.value| == Delivered(len, old(State()), d.want)
      ensures r.Err? ==> pos == old(pos)
    {
      hide Honest, Served, Grants, Fetch, FetchLen, Delivered, Covered, Operation.Valid, PlainRead;
      if d.want == 0 || pos >= len {
        NothingRead(content, State(), d.want);
        return Ok([]);
      }
      var ready :- EnsureWindow(d);
      var (start, data) := window.value;
      var offset := pos - start;
      var available := |data| - offset;
      var count := Min(available, d.want);
      WindowSlice(content, start, data, pos, count, d.want);
      pos := pos + count;
      return Ok(data[offset..offset + count]);
    }

    method Seek(whence: Whence) returns (r: Result<nat, RemoteError>)
      requires Valid()
      modifies this`pos
      ensures Valid()
      ensures r.Ok? <==> 0 <= Target(len, old(pos), whence) < I64_LIMIT
      ensures r.Ok? ==> r.value == pos == Target(len, old(pos), whence)
      ensures r.Err? ==> pos == old(pos)
    {
      var newPos := match whence
        case Start(offset) => WrapI64(offset)
        case End(delta) => WrapI64(len + delta)
        case Current(delta) => WrapI64(pos + delta);
      if newPos < 0 {
        return Err(NegativeSeek);
      }
      pos := newPos;
      return Ok(pos);
    }

    /** Reads until `want` bytes are there or the object ends, as callers that
        need a whole structure do; `network(k)` is what the `k`-th read meets. */
    method ReadFully(want: nat, network: nat -> (Server, bool)) returns (r: Result<seq<byte>, RemoteError>)
      requires Valid() && forall k :: Honest(network(k).0, content)
      modifies this, operation
      ensures Valid()
      ensures r.Ok? <==> AllServed(source, len, old(State()), old(operation.grants), want, network, 0)
      ensures r.Ok? ==> r.value == content[Min(old(pos), len)..Min(old(pos) + want, len)]
      ensures r.Ok? ==> pos == old(pos) + |r.value|
    {
      hide Honest, Grants, Delivers, FetchLen, Operation.Valid, Covered;
      var out: seq<byte> := [];
      var calls: nat := 0;
      ghost var from := pos;
      while |out| < want && pos < len
        invariant Valid() && |out| <= want && pos == from + |out|
        invariant pos <= len || out == []
        invariant from < len ==> pos <= len && out == content[from..pos]
        invariant AllServed(source, len, old(State()), old(operation.grants), want, network, 0)
             <==> AllServed(source, len, State(), operation.grants, want - |out|, network, calls)
        decreases want - |out|
      {
        FetchLenFits(want - |out|, len - pos);
        var more :- Read(Demand(want - |out|, network(calls).0, network(calls).1));
        out := out + more;
        calls := calls + 1;
      }
      return Ok(out);
    }
  }

  /** Every read that is needed for `want` bytes in a row is served. */
  ghost predicate AllServed(source: Source, len: nat, c: Cache, grants: seq<nat>, want: nat, network: nat -> (Server, bool), k: nat)
    decreases want
  {
    NeedsFetch(len, c, want) ==>
      var d, f := Demand(want, network(k).0, network(k).1), Fetch(len, c, want);
      FetchLenFits(want, len - c.pos);
      && Served(source, len, c, grants, d)
      && AllServed(source, len, Cache(c.pos + Min(want, f), Some((c.pos, c.pos + f))), grants + [f], want - Min(want, f), network, k + 1)
  }

  /** A source that answers every range, in time. */
  ghost predicate Reliable(source: Source, len: nat, network: nat -> (Server, bool)) {
    forall k: nat :: !network(k).1 && forall a: nat, n: nat :: a + n <= len ==> Delivers(source, len, network(k).0, a, n)
  }

  /** A fetch is a full range, or it is the last one that is needed. */
  lemma FullOrLast(want: nat, remaining: nat)
    requires want > 0 && remaining > 0
    ensures var f := FetchLen(want, remaining);
            && 0 < f <= MAX_RANGE_BYTES && f <= remaining
            && (f == MAX_RANGE_BYTES <= want || Min(want, f) == Min(want, remaining))
  {
  }

  lemma ReliableAt(source: Source, len: nat, network: nat -> (Server, bool), k: nat, a: nat, n: nat)
    requires Reliable(source, len, network) && a + n <= len
    ensures !network(k).1 && Delivers(source, len, network(k).0, a, n)
  {
    hide Delivers;
  }

  lemma OneMoreGrant(grants: seq<nat>, f: nat)
    ensures Total(grants + [f]) == Total(grants) + f
  {
    assert (grants + [f])[..|grants|] == grants;
  }

  /** A source that answers serves what the budget grants. */
  lemma AnswerServes(source: Source, len: nat, c: Cache, grants: seq<nat>, want: nat, network: nat -> (Server, bool), k: nat)
    requires NeedsFetch(len, c, want)
    requires !network(k).1 && Delivers(source, len, network(k).0, c.pos, Fetch(len, c, want))
    ensures var f := Fetch(len, c, want);
            && Total(grants + [f]) == Total(grants) + f
            && (AllServed(source, len, c, grants, want, network, k) <==>
                  && |grants| < MAX_OPERATION_REQUESTS && Total(grants) + f <= MAX_OPERATION_BYTES
                  && AllServed(source, len, Cache(c.pos + Min(want, f), Some((c.pos, c.pos + f))), grants + [f], want - Min(want, f), network, k + 1))
  {
    hide Delivers, Covered, Fetch, Total;
    var f := Fetch(len, c, want);
    OneMoreGrant(grants, f);
  }

  lemma NothingToServe(source: Source, len: nat, c: Cache, grants: seq<nat>, want: nat, network: nat -> (Server, bool), k: nat)
    requires !NeedsFetch(len, c, want)
    ensures AllServed(source, len, c, grants, want, network, k)
  {
  }

  /** After `n` full ranges the rest is served as long as the budget lasts. */
  lemma {:induction false} FullRangesServed(source: Source, len: nat, c: Cache, grants: seq<nat>, want: nat, network: nat -> (Server, bool), n: nat)
    requires Reliable(source, len, network) && !Covered(c, want) && c.pos <= len
    requires |grants| == n <= 4 && Total(grants) == n * MAX_RANGE_BYTES
    ensures AllServed(source, len, c, grants, want, network, n) <==> Min(want, len - c.pos) <= MAX_OPERATION_BYTES - n * MAX_RANGE_BYTES
    decreases 4 - n
  {
    hide Reliable, Total, FetchLen, AllServed;
    if NeedsFetch(len, c, want) {
      var f := Fetch(len, c, want);
      FullOrLast(want, len - c.pos);
      ReliableAt(source, len, network, n, c.pos, f);
      AnswerServes(source, len, c, grants, want, network, n);
      var next := Cache(c.pos + Min(want, f), Some((c.pos, c.pos + f)));
      if n < 4 && f == MAX_RANGE_BYTES && want > f {
        FullRangesServed(source, len, next, grants + [f], want - f, network, n + 1);
      } else if n < 4 {
        NothingToServe(source, len, next, grants + [f], want - Min(want, f), network, n + 1);
      }
    } else {
      NothingToServe(source, len, c, grants, want, network, n);
    }
  }

  /** The budget in plain terms: on a reliable source a fresh operation reads a
      range of a brokered object in full if and only if it has at most 8 MiB. */
  lemma ReadsUpTo8MiB(source: Source, len: nat, pos: nat, want: nat, network: nat -> (Server, bool))
    requires Reliable(source, len, network) && pos <= len
    ensures AllServed(source, len, Cache(pos, None), [], want, network, 0) <==> Min(want, len - pos) <= 8388608
  {
    hide AllServed;
    FullRangesServed(source, len, Cache(pos, None), [], want, network, 0);
  }

  /** Opens a reader. The trusted source reserves and reads one byte to learn the
      length, and the reader starts with that byte as its window. */
  method OpenWithOperation(source: Source, operation: Operation, server: Server, expired: bool, ghost content: seq<byte>)
    returns (r: Result<HttpRangeReader, RemoteError>)
    requires operation.Valid() && Honest(server, content) && |content| < I64_LIMIT
    requires source.RangeObject? ==> source.length == |content|
    requires source.Administrative? && GetRange(source, server, 0, 1).Ok? ==> GetRange(source, server, 0, 1).value.0 == |content|
    modifies operation
    ensures operation.Valid()
    ensures r.Ok? <==> |content| > 0 && (source.Administrative? ==> Grants(old(operation.grants), 1, expired) && GetRange(source, server, 0, 1).Ok?)
    ensures r.Ok? ==> fresh(r.value) && r.value.Valid() && r.value.pos == 0
                      && r.value.source == source && r.value.operation == operation && r.value.content == content
                      && r.value.window == if source.Administrative? then Some((0, content[..1])) else None
    ensures operation.grants ==
            old(operation.grants) + (if source.Administrative? && Grants(old(operation.grants), 1, expired) then [1] else [])
  {
    hide Grants, Total;
    var len, window := 0, None;
    match source {
      case RangeObject(length) =>
        len := length;
      case Administrative =>
        var granted := operation.Reserve(1, expired);
        if !granted {
          return Err(BudgetExhausted);
        }
        var reply :- GetRange(source, server, 0, 1);
        var (total, bytes) := reply;
        assert server(0, 1).Ok?;
        len, window := total, Some((0, bytes));
    }
    if len == 0 {
      return Err(Range);
    }
    var reader := new HttpRangeReader(source, operation, len, window, content);
    return Ok(reader);
  }

  /** One call on one reader. */
  method Call(reader: HttpRangeReader, op: Op) returns (answer: Answer)
    requires reader.Valid() && (op.Read? ==> Honest(op.demand.server, reader.content))
    modifies reader, reader.operation
    ensures reader.Valid()
    ensures PlainStep(reader.source, reader.content, old(reader.State()), old(reader.operation.grants), op, answer, reader.State(), reader.operation.grants)
  {
    hide Honest, Served, Grants, Total;
    match op {
      case Read(demand) =>
        var read := reader.Read(demand);
        answer := if read.Ok? then Bytes(read.value) else Failed(read.error);
      case Seek(whence) =>
        var sought := reader.Seek(whence);
        answer := if sought.Ok? then At(sought.value) else Failed(sought.error);
    }
  }

  /** Any sequence of calls answers as the plain byte array would, from a state
      and a budget that each call hands on to the next. */
  method Session(reader: HttpRangeReader, ops: seq<Op>)
    returns (answers: seq<Answer>, ghost states: seq<Cache>, ghost budgets: seq<seq<nat>>)
    requires reader.Valid() && forall i :: 0 <= i < |ops| && ops[i].Read? ==> Honest(ops[i].demand.server, reader.content)
    modifies reader, reader.operation
    ensures reader.Valid() && |answers| == |ops| && |states| == |budgets| == |ops| + 1
    ensures states[0] == old(reader.State()) && states[|ops|] == reader.State()
    ensures budgets[0] == old(reader.operation.grants) && budgets[|ops|] == reader.operation.grants
    ensures forall i :: 0 <= i < |ops| ==>
              PlainStep(reader.source, reader.content, states[i], budgets[i], ops[i], answers[i], states[i + 1], budgets[i + 1])
  {
    hide PlainStep, Honest;
    answers, states, budgets := [], [reader.State()], [reader.operation.grants];
    for i := 0 to |ops|
      invariant reader.Valid() && |answers| == i && |states| == |budgets| == i + 1
      invariant states[0] == old(reader.State()) && states[i] == reader.State()
      invariant budgets[0] == old(reader.operation.grants) && budgets[i] == reader.operation.grants
      invariant forall k :: 0 <= k < i ==>
                  PlainStep(reader.source, reader.content, states[k], budgets[k], ops[k], answers[k], states[k + 1], budgets[k + 1])
    {
      var answer := Call(reader, ops[i]);
      answers := answers + [answer];
      states := states + [reader.State()];
      budgets := budgets + [reader.operation.grants];
    }
  }

  /** Where each reader stands. */
  ghost function States(readers: seq<HttpRangeReader>): (states: seq<Cache>)
    reads readers
    ensures |states| == |readers| && forall k :: 0 <= k < |readers| ==> states[k] == readers[k].State()
  {
    seq(|readers|, k requires 0 <= k < |readers| reads readers => readers[k].State())
  }

  /** One call: the reader called answers as its plain array and charges the
      common budget, every other one stays as it is. */
  ghost predicate SharedStep(readers: seq<HttpRangeReader>, before: seq<Cache>, grants: seq<nat>, call: (nat, Op), answer: Answer,
                             after: seq<Cache>, grants': seq<nat>)
  {
    && |before| == |after| == |readers| && call.0 < |readers|
    && PlainStep(readers[call.0].source, readers[call.0].content, before[call.0], grants, call.1, answer, after[call.0], grants')
    && forall k :: 0 <= k < |readers| ==> after[k] == if readers[k] == readers[call.0] then after[call.0] else before[k]
  }

  method SharedCall(operation: Operation, readers: seq<HttpRangeReader>, call: (nat, Op)) returns (answer: Answer)
    requires forall r :: r in readers ==> r.Valid() && r.operation == operation
    requires call.0 < |readers| && (call.1.Read? ==> Honest(call.1.demand.server, readers[call.0].content))
    modifies readers, operation
    ensures operation.Valid() && forall r :: r in readers ==> r.Valid()
    ensures SharedStep(readers, old(States(readers)), old(operation.grants), call, answer, States(readers), operation.grants)
  {
    hide PlainStep, Honest, Total;
    answer := Call(readers[call.0], call.1);
  }

  /** However many readers share one operation and however their calls are
      interleaved, each still answers as its plain array, from where its own
      last call left it, and together they get at most 32 requests and 8 MiB. */
  method SharedSession(operation: Operation, readers: seq<HttpRangeReader>, calls: seq<(nat, Op)>)
    returns (answers: seq<Answer>, ghost states: seq<seq<Cache>>, ghost budgets: seq<seq<nat>>)
    requires forall r :: r in readers ==> r.Valid() && r.operation == operation
    requires operation.Valid()
    requires forall i :: 0 <= i < |calls| ==>
               calls[i].0 < |readers| && (calls[i].1.Read? ==> Honest(calls[i].1.demand.server, readers[calls[i].0].content))
    modifies readers, operation
    ensures forall r :: r in readers ==> r.Valid()
    ensures |answers| == |calls| && |states| == |budgets| == |calls| + 1
    ensures states[0] == old(States(readers)) && states[|calls|] == States(readers)
    ensures budgets[0] == old(operation.grants) && budgets[|calls|] == operation.grants
    ensures forall i :: 0 <= i < |calls| ==> SharedStep(readers, states[i], budgets[i], calls[i], answers[i], states[i + 1], budgets[i + 1])
    ensures |operation.grants| <= 32 && Total(operation.grants) <= 8388608
  {
    hide SharedStep, Honest, Total;
    answers, states, budgets := [], [States(readers)], [operation.grants];
    for i := 0 to |calls|
      invariant forall r :: r in readers ==> r.Valid()
      invariant operation.Valid() && |answers| == i && |states| == |budgets| == i + 1
      invariant states[0] == old(States(readers)) && states[i] == States(readers)
      invariant budgets[0] == old(operation.grants) && budgets[i] == operation.grants
      invariant forall k :: 0 <= k < i ==> SharedStep(readers, states[k], budgets[k], calls[k], answers[k], states[k + 1], budgets[k + 1])
    {
      var answer := SharedCall(operation, readers, calls[i]);
      answers := answers + [answer];
      states := states + [States(readers)];
      budgets := budgets + [operation.grants];
    }
  }

  /** A seek that names a position from 2^63 on is refused although the position
      is not negative; below that the wrapped arithmetic is exact. */
  lemma WrapIsExactIff(x: int)
    requires 0 <= x < U64_LIMIT
    ensures 0 <= WrapI64(x) && WrapI64(x) == x <==> x < I64_LIMIT
    ensures WrapI64(x) < 0 <==> x >= I64_LIMIT
  {
  }
}
