/** Byte and MiB conversions (pkg/utils/utils.go) in Go's int64 arithmetic, and the size a request asks for. */
module Sizes {
  import opened Results

  const UNIT_MB: int := 0x10_0000
  const UNIT_GB: int := 0x4000_0000
  const TWO_63: int := 0x8000_0000_0000_0000
  const TWO_64: int := 0x1_0000_0000_0000_0000

  // The largest size whose MiB round trip stays inside int64.
  const MAX_SHARE_BYTES: int := TWO_63 - UNIT_MB

  predicate IsInt64(x: int) {
    -TWO_63 <= x < TWO_63
  }

  // Two's complement wrap-around of an int64 result.
  function Wrap(x: int): (r: int)
    ensures IsInt64(r)
  {
    (x + TWO_63) % TWO_64 - TWO_63
  }

  // Go's "/" truncates toward zero.
  function DivTrunc(x: int, d: int): int
    requires d > 0
  {
    if x >= 0 then x / d else -(-x / d)
  }

  function MBToBytes(size: int): int {
    Wrap(size * UNIT_MB)
  }

  function BytesToMB(size: int): int {
    DivTrunc(size, UNIT_MB)
  }

  function BytesToMBCeil(size: int): int {
    DivTrunc(Wrap(size + UNIT_MB - 1), UNIT_MB)
  }

  // What a share of the requested size is reported as: up to whole MiB and back to bytes.
  function RoundTrip(size: int): int {
    MBToBytes(BytesToMBCeil(size))
  }

  // The round trip covers the request, and by less than a MiB, exactly up to MAX_SHARE_BYTES;
  // above it the addition wraps and the share is reported smaller than asked for.
  lemma RoundTripCovers(size: int)
    requires 0 <= size < TWO_63
    ensures size <= MAX_SHARE_BYTES <==> size <= RoundTrip(size)
    ensures size <= MAX_SHARE_BYTES ==> RoundTrip(size) < size + UNIT_MB && RoundTrip(size) % UNIT_MB == 0
    ensures size > MAX_SHARE_BYTES ==> RoundTrip(size) <= 0
  {
    if size <= MAX_SHARE_BYTES {
      var up := (size + UNIT_MB - 1) / UNIT_MB;
      assert BytesToMBCeil(size) == up;
      assert MBToBytes(up) == up * UNIT_MB;
    } else {
      assert Wrap(size + UNIT_MB - 1) == size + UNIT_MB - 1 - TWO_64;
    }
  }

  // A second round trip changes nothing, and the first one changes nothing exactly on whole MiB.
  lemma RoundTripSettles(size: int)
    requires 0 <= size <= MAX_SHARE_BYTES
    ensures 0 <= RoundTrip(size) <= MAX_SHARE_BYTES
    ensures RoundTrip(RoundTrip(size)) == RoundTrip(size)
    ensures RoundTrip(size) == size <==> size % UNIT_MB == 0
  {
    hide RoundTrip;
    RoundTripCovers(size);
    assert RoundTrip(size) <= MAX_SHARE_BYTES;
    RoundTripCovers(RoundTrip(size));
  }

  lemma WholeMegabytes(n: int)
    ensures BytesToMB(n * UNIT_MB) == n
  {
  }

  // A quota in MiB that reads back as the rounded-up request is that request's round trip, whatever
  // the multiplication into bytes wrapped on the way.
  lemma MegabytesPinBytes(quotaMB: int, requested: int)
    requires BytesToMB(MBToBytes(quotaMB)) == BytesToMBCeil(requested)
    ensures MBToBytes(quotaMB) == RoundTrip(requested)
  {
    var turns := (quotaMB * UNIT_MB + TWO_63) / TWO_64;
    var whole := quotaMB - turns * 0x1000_0000_0000;
    assert MBToBytes(quotaMB) == whole * UNIT_MB;
    WholeMegabytes(whole);
  }

  datatype CapacityRange = CapacityRange(required: int, limit: int)

  // getSizeByCapacityRange: no range asks for one GiB.
  function RequestedSize(range: Option<CapacityRange>): (r: Result<int, Code>)
    ensures r.Ok? <==>
            range.None?
                || (range.value.required >= UNIT_GB
                    && (range.value.limit > 0 ==> range.value.required <= range.value.limit))
    ensures r.Ok? ==> r.value >= UNIT_GB && (range.Some? ==> r.value == range.value.required)
    ensures r.Err? ==> r.error == InvalidArgument
  {
    match range
    case None => Ok(UNIT_GB)
    case Some(CapacityRange(minSize, maxSize)) =>
      if 0 < maxSize && maxSize < minSize then Err(InvalidArgument)
      else if minSize < UNIT_GB then Err(InvalidArgument)
      else Ok(minSize)
  }

  // checkRestoreSize: a restore may not be smaller than its source; 0 asks for no particular size.
  predicate RestoreSizeAllowed(requested: int, source: int) {
    !(requested != 0 && requested < source)
  }

  // needsExpandTo: the size a clone has to grow to, or 0.
  function NeedsExpandTo(requested: int, actual: int): int {
    if requested > actual then requested else 0
  }
}
