/** Where the body of a request comes from: the connection or a decompressor, on relay
    routes behind `http.MaxBytesReader` (middleware/gzip.go). */
module BodySource {
  import opened Basics
  import opened DiskCache

  datatype ReadError = SizeLimit | BrokenRead

  /** How a stream stops. */
  datatype Stop = AtEnd | Failed(error: ReadError)
  {
    function Error(): Option<ReadError> {
      if Failed? then Some(error) else None
    }
  }

  /** `http.MaxBytesReader`: the bytes it still lets through, and how it has stopped,
      which it repeats for ever. */
  datatype Limit = Limit(left: nat, stop: Option<Stop>)

  /** The bytes to come and what follows them: the end, or an error when `broken`.
      Closing makes a stream unreadable unless everything is `buffered` already, as for a
      request without a body or a short compressed one. */
  datatype Stream = Stream(bytes: seq<Byte>, broken: bool, buffered: bool, closed: bool, limit: Option<Limit>)
  {
    predicate Fresh() {
      !closed && (limit.Some? ==> limit.value.stop.None?)
    }

    function Close(): Stream {
      this.(closed := true, bytes := if buffered then bytes else [])
    }

    /** What follows the remaining bytes. */
    function After(): Stop {
      if broken || (closed && !buffered) then Failed(BrokenRead) else AtEnd
    }

    function Stopped(stop: Stop, left: int): Stream
      requires left >= 0
    {
      this.(bytes := [], limit := if limit.Some? then Some(Limit(left, Some(stop))) else None)
    }
  }

  /** Reading a stream through `io.LimitReader(_, cap)` to its end: the bytes, the error
      if that is how it ended, and the stream afterwards. */
  function Delivery(s: Stream, cap: int): (seq<Byte>, Option<ReadError>, Stream) {
    if cap <= 0 then ([], None, s)
    else if s.limit.Some? && s.limit.value.stop.Some? then ([], s.limit.value.stop.value.Error(), s)
    else if s.limit.Some? && |s.bytes| > s.limit.value.left && cap > s.limit.value.left then
      (s.bytes[..s.limit.value.left], Some(SizeLimit), s.Stopped(Failed(SizeLimit), 0))
    else if |s.bytes| >= cap then
      (s.bytes[..cap], None,
       s.(bytes := s.bytes[cap..],
          limit := if s.limit.Some? then Some(Limit(s.limit.value.left - cap, None)) else None))
    else
      (s.bytes, s.After().Error(),
       s.Stopped(s.After(), if s.limit.Some? then s.limit.value.left - |s.bytes| else 0))
  }

  /** The longest body that is read in full when at most `maxBytes` are accepted. */
  function Allowed(s: Stream, maxBytes: int): int {
    if s.limit.Some? && s.limit.value.left < maxBytes then s.limit.value.left else maxBytes
  }

  /** A fresh stream is read in full, to the byte, exactly when it is not broken and not
      longer than both limits allow; otherwise it ends in an error or is longer than
      accepted. */
  lemma FreshDelivery(s: Stream, maxBytes: int)
    requires s.Fresh()
    ensures var (data, error, _) := Delivery(s, maxBytes + 1);
            && (|s.bytes| <= Allowed(s, maxBytes) ==>
                  data == s.bytes && error == if s.broken then Some(BrokenRead) else None)
            && (|s.bytes| > Allowed(s, maxBytes) ==> error == Some(SizeLimit) || (error.None? && |data| > maxBytes))
  {
  }

  /** A part of an unread stream: its first bytes, as many as asked for, as there are or as
      the limit lets through; what was not delivered is still to come, and counts on. */
  lemma PartInOrder(s: Stream, cap: nat)
    requires s.Fresh()
    ensures var (data, error, rest) := Delivery(s, cap);
            && |data| <= cap && data <= s.bytes && (s.limit.Some? ==> |data| <= s.limit.value.left)
            && (error.None? ==> |data| == cap || data == s.bytes)
            && (error == Some(SizeLimit) ==> s.limit.Some? && |data| == s.limit.value.left < |s.bytes|)
            && (error == Some(BrokenRead) ==> s.broken && data == s.bytes)
            && (|data| == cap && error.None? ==>
                  && rest.Fresh() && data + rest.bytes == s.bytes && rest.broken == s.broken
                  && rest.limit.Some? == s.limit.Some?
                  && (s.limit.Some? ==> rest.limit.value.left == s.limit.value.left - cap))
  {
  }

  /** A stream that has nothing left to give and says so again and again. */
  ghost predicate Exhausted(s: Stream) {
    s.closed && s.bytes == [] && (s.limit.Some? ==> s.limit.value.stop.Some?)
  }

  ghost function Fate(s: Stream): Stop
    requires Exhausted(s)
  {
    if s.limit.Some? then s.limit.value.stop.value else s.After()
  }

  lemma ExhaustedRepeats(s: Stream, cap: int)
    requires Exhausted(s) && cap > 0
    ensures Delivery(s, cap) == ([], Fate(s).Error(), s)
    ensures s.Close() == s
  {
  }

  /** How a stream that is read and closed ends when it is read again: the size limit is
      repeated as such, a limited stream that was read to its end stays at its end, and a
      connection refuses to be read unless there was no body. */
  function Left(s: Stream): Stop {
    if s.broken && (s.limit.Some? ==> |s.bytes| <= s.limit.value.left) then Failed(BrokenRead)
    else if s.limit.None? then if s.buffered then AtEnd else Failed(BrokenRead)
    else if |s.bytes| > s.limit.value.left then Failed(SizeLimit)
    else AtEnd
  }

  /** Untouched, and limited as the routes do it: behind a limit that is not above that of
      `GetRequestBody`, or bare, where only an absent body is buffered. */
  ghost predicate AsRouted(s: Stream, maxBytes: int) {
    s.Fresh() && if s.limit.Some? then s.limit.value.left <= maxBytes else s.buffered ==> s.bytes == []
  }

  lemma FateAfterReading(s: Stream, maxBytes: int)
    requires AsRouted(s, maxBytes) && maxBytes >= 0
    ensures var rest := Delivery(s, maxBytes + 1).2.Close(); Exhausted(rest) && Fate(rest) == Left(s)
  {
  }

  // ---------------------------------------------------------------------
  // The size limits
  // ---------------------------------------------------------------------

  /** `int64(mb) << 20`, which wraps around. */
  function ShiftedMegabytes(mb: int): (r: int)
    ensures INT64_MIN <= r < INT64_MAX
    ensures 0 <= mb < 0x800_0000_0000 ==> r == mb * MEGABYTE
  {
    var shifted := mb * MEGABYTE % TWO_64;
    if shifted > INT64_MAX then shifted - TWO_64 else shifted
  }

  /** The limit of `GetRequestBody`. */
  function MaxBytes(maxMB: int): (r: int)
    ensures r < INT64_MAX
  {
    ShiftedMegabytes(if maxMB <= 0 then 128 else maxMB)
  }

  /** `DecompressRequestMiddleware`: every relayed body gets a limit of its own, with
      another default. */
  function Admit(maxMB: int, s: Stream): Stream {
    var maxBytes := ShiftedMegabytes(if maxMB <= 0 then 32 else maxMB);
    s.(limit := Some(Limit(if maxBytes < 0 then 0 else maxBytes, None)))
  }

  /** On a relay route a body may have as many megabytes as configured, and 32 when that
      is not positive, although `GetRequestBody` would take 128; on other routes the limit
      of `GetRequestBody` holds. */
  lemma EffectiveLimits(maxMB: int, s: Stream)
    ensures maxMB <= 0 ==> Allowed(Admit(maxMB, s), MaxBytes(maxMB)) == 33554432
    ensures 0 < maxMB < 0x800_0000_0000 ==> Allowed(Admit(maxMB, s), MaxBytes(maxMB)) == MaxBytes(maxMB) == maxMB * 1048576
    ensures s.limit.None? ==> Allowed(s, MaxBytes(maxMB)) == MaxBytes(maxMB)
    ensures maxMB <= 0 ==> MaxBytes(maxMB) == 134217728
    ensures s.Fresh() && MaxBytes(maxMB) >= 0 ==> AsRouted(Admit(maxMB, s), MaxBytes(maxMB))
  {
  }
}
