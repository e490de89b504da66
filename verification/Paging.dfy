/** Page-size discovery, page rounding, and how a block's size tells chunks from pass-through blocks. */
module Paging {
  import opened Wrappers

  /** One more than the largest `usize`, and the largest size a layout can have. */
  const USIZE_LIMIT: nat := 0x1_0000_0000_0000_0000
  const LAYOUT_MAX: nat := 0x7FFF_FFFF_FFFF_FFFF

  const MIN_PROBE_PAGE: nat := 4096
  const MAX_PROBE_PAGE: nat := 0x10_0000
  const SCRATCH_LEN: nat := 2 * MAX_PROBE_PAGE

  function RoundUp(n: nat, page: nat): nat
    requires page > 0
  {
    (n + page - 1) / page * page
  }

  function CheckedNextMultiple(n: nat, page: nat): Option<nat> {
    if page == 0 || RoundUp(n, page) >= USIZE_LIMIT then None else Some(RoundUp(n, page))
  }

  /** The length mapped for a request, or nothing if it is refused; `mapping` is the kernel's consent. */
  function MappedLength(size: nat, align: nat, page: nat, mapping: bool): Option<nat> {
    if size == 0 || align > page then None
    else match CheckedNextMultiple(size, page)
         case None => None
         case Some(length) => if mapping then Some(length) else None
  }

  /** The length unmapped when a block is freed with `size`. */
  function UnmappedLength(size: nat, page: nat): Option<nat> {
    CheckedNextMultiple(size, page)
  }

  /** `RoundUp` is the least multiple of the page size that is large enough. */
  lemma RoundUpIsLeast(n: nat, page: nat, multiple: nat)
    requires page > 0
    ensures RoundUp(n, page) % page == 0 && n <= RoundUp(n, page) < n + page
    ensures multiple % page == 0 && n <= multiple ==> RoundUp(n, page) <= multiple
  {
    var q := (n + page - 1) / page;
    MultipleHasNoRemainder(q, page);
    if multiple % page == 0 && n <= multiple && q * page > multiple {
      NextMultiple(multiple / page, q, page);
    }
  }

  lemma NextMultiple(k: nat, q: nat, page: nat)
    requires page > 0 && k * page < q * page
    ensures k * page + page <= q * page
  {
    SmallerFactor(k, q, page);
    SmallerOrEqualProduct(k + 1, q, page);
    assert (k + 1) * page == k * page + page;
  }

  lemma MultipleHasNoRemainder(q: nat, page: nat)
    requires page > 0
    ensures (q * page) % page == 0 && (q * page) / page == q
  {
    QuotientIsUnique(q * page, page, q, 0);
  }

  lemma QuotientIsUnique(n: nat, page: nat, q: nat, r: nat)
    requires n == q * page + r && r < page
    ensures n / page == q && n % page == r
  {
    var p := n / page;
    assert n == p * page + n % page;
    if p < q {
      SmallerOrEqualProduct(p + 1, q, page);
    } else if q < p {
      SmallerOrEqualProduct(q + 1, p, page);
    }
  }

  lemma SmallerFactor(k: nat, q: nat, page: nat)
    requires page > 0 && k * page < q * page
    ensures k < q
  {
    if k >= q {
      SmallerOrEqualProduct(q, k, page);
    }
  }

  lemma SmallerOrEqualProduct(a: nat, b: nat, page: nat)
    requires a <= b
    ensures a * page <= b * page
  {
  }

  /** Every size a caller may legally free a block with unmaps exactly what was mapped. */
  lemma UnmapsWhatWasMapped(requested: nat, align: nat, page: nat, freed: nat)
    requires requested <= LAYOUT_MAX && MappedLength(requested, align, page, true).Some?
    requires requested <= freed <= MappedLength(requested, align, page, true).value
    ensures UnmappedLength(freed, page) == MappedLength(requested, align, page, true)
  {
    var mapped := RoundUp(requested, page);
    RoundUpIsLeast(requested, page, 0);
    RoundUpIsLeast(freed, page, mapped);
    RoundUpIsLeast(requested, page, RoundUp(freed, page));
  }

  /** Rounding succeeds exactly if some multiple of the page size fits. */
  lemma FitsIfAnyMultipleDoes(n: nat, page: nat)
    ensures CheckedNextMultiple(n, page).Some? <==> page > 0 && exists multiple: nat :: IsFit(n, page, multiple)
    ensures CheckedNextMultiple(n, page).Some? ==> IsFit(n, page, CheckedNextMultiple(n, page).value)
  {
    if page > 0 {
      RoundUpIsLeast(n, page, 0);
      forall multiple: nat | IsFit(n, page, multiple) ensures RoundUp(n, page) <= multiple {
        RoundUpIsLeast(n, page, multiple);
      }
      assert RoundUp(n, page) < USIZE_LIMIT ==> IsFit(n, page, RoundUp(n, page));
    }
  }

  predicate IsFit(n: nat, page: nat, multiple: nat)
    requires page > 0
  {
    multiple % page == 0 && n <= multiple < USIZE_LIMIT
  }

  /** A request is refused for exactly two reasons besides the kernel's; an unknown page size is one of them. */
  lemma OnlyOddRequestsAreRefused(size: nat, align: nat, page: nat, mapping: bool)
    requires page <= MAX_PROBE_PAGE && size <= LAYOUT_MAX && align > 0
    ensures MappedLength(size, align, page, mapping).None? <==> size == 0 || align > page || !mapping
    ensures MappedLength(size, align, page, mapping).Some? ==> MappedLength(size, align, page, mapping).value >= size
  {
    if page > 0 {
      RoundUpIsLeast(size, page, 0);
    }
  }

  // ---------------------------------------------------------------- chunks and pass-through blocks

  /** Sizes a caller may pass back: at least what it asked for, at most what it was given. */
  predicate IsLegalSize(freed: nat, requested: nat, given: nat) {
    requested <= freed <= given
  }

  /**
   * The freed size tells chunks and bigger blocks apart for every request exactly if chunks are
   * whole pages. Otherwise a fresh chunk is longer than `chunkSize`, and its full length is taken
   * for a pass-through block.
   */
  lemma SizeTellsChunksApart(chunkSize: nat, page: nat)
    requires chunkSize > 0 && page > 0
    ensures (forall requested: nat, freed: nat ::
               0 < requested <= chunkSize && IsLegalSize(freed, requested, RoundUp(chunkSize, page)) ==>
               freed <= chunkSize)
            <==> chunkSize % page == 0
    ensures forall requested: nat, freed: nat, given: nat ::
              requested > chunkSize && IsLegalSize(freed, requested, given) ==> freed > chunkSize
  {
    RoundUpIsLeast(chunkSize, page, chunkSize);
    var given := RoundUp(chunkSize, page);
    if chunkSize % page != 0 {
      assert given > chunkSize;
      assert IsLegalSize(given, chunkSize, given);
    }
  }

  // ---------------------------------------------------------------- probing the page size

  function Pow2(k: nat): (p: nat)
    ensures p > 0
  {
    if k == 0 then 1 else 2 * Pow2(k - 1)
  }

  lemma DoubleOfMultiple(q: nat, page: nat)
    requires page > 0
    ensures 2 * (q * page) % page == 0
  {
    assert 2 * (q * page) == (2 * q) * page;
    MultipleHasNoRemainder(2 * q, page);
  }

  lemma {:induction false} BiggerPowerIsMultiple(j: nat, k: nat)
    requires j <= k
    ensures Pow2(k) % Pow2(j) == 0 && Pow2(j) <= Pow2(k)
    ensures j < k ==> 2 * Pow2(j) <= Pow2(k)
    decreases k
  {
    if j < k {
      BiggerPowerIsMultiple(j, k - 1);
      var q := Pow2(k - 1) / Pow2(j);
      var p := Pow2(j);
      assert Pow2(k - 1) == q * p;
      DoubleOfMultiple(q, p);
    }
  }

  lemma AlignedSum(base: nat, offset: nat, page: nat)
    requires page > 0 && base % page == 0
    ensures (base + offset) % page == offset % page
  {
    var k := base / page;
    assert base + offset == k * page + offset;
    RemainderOfSum(k, offset, page);
  }

  lemma {:induction false} RemainderOfSum(k: nat, offset: nat, page: nat)
    requires page > 0
    ensures (k * page + offset) % page == offset % page
  {
    if k > 0 {
      RemainderOfSum(k - 1, offset, page);
      assert k * page + offset == ((k - 1) * page + offset) + page;
      RemainderOfPlusOne((k - 1) * page + offset, page);
    }
  }

  lemma RemainderOfPlusOne(n: nat, page: nat)
    requires page > 0
    ensures (n + page) % page == n % page
  {
    var q, r := n / page, n % page;
    assert n + page == (q + 1) * page + r;
    QuotientIsUnique(n + page, page, q + 1, r);
  }

  lemma ProbeBounds()
    ensures Pow2(12) == MIN_PROBE_PAGE && Pow2(20) == MAX_PROBE_PAGE
  {
    assert Pow2(4) == 16;
    assert Pow2(8) == 256;
    assert Pow2(12) == 4096;
    assert Pow2(16) == 65536;
  }

  lemma AcceptedFromPageSizeOn(base: nat, k: nat, j: nat)
    requires base % Pow2(k) == 0
    ensures (base + Pow2(j)) % Pow2(k) == 0 <==> k <= j
  {
    AlignedSum(base, Pow2(j), Pow2(k));
    if k <= j {
      BiggerPowerIsMultiple(k, j);
    } else {
      BiggerPowerIsMultiple(j, k);
      QuotientIsUnique(Pow2(j), Pow2(k), 0, Pow2(j));
    }
  }

  lemma PowersUpToMax(j: nat)
    ensures Pow2(j) <= MAX_PROBE_PAGE <==> j <= 20
  {
    ProbeBounds();
    if j <= 20 {
      BiggerPowerIsMultiple(j, 20);
    } else {
      BiggerPowerIsMultiple(20, j);
    }
  }

  lemma OneByteIsOnePage(page: nat)
    requires page > 0
    ensures RoundUp(1, page) == page
  {
    QuotientIsUnique(page, page, 1, 0);
  }

  /** A probe at `2^j` is accepted exactly if it is at least a page, and stays inside the scratch mapping. */
  lemma ProbeStep(base: nat, k: nat, j: nat)
    requires base % Pow2(k) == 0
    ensures (base + Pow2(j)) % Pow2(k) == 0 <==> k <= j
    ensures Pow2(j) <= MAX_PROBE_PAGE <==> j <= 20
    ensures j <= 20 && k <= 20 ==> Pow2(j) + RoundUp(1, Pow2(k)) <= SCRATCH_LEN
  {
    AcceptedFromPageSizeOn(base, k, j);
    PowersUpToMax(j);
    PowersUpToMax(k);
    OneByteIsOnePage(Pow2(k));
  }

  /** What the probe finds for a kernel page of `2^k` bytes. */
  function Probed(k: nat): nat {
    if k <= 12 then MIN_PROBE_PAGE else if k <= 20 then Pow2(k) else 0
  }

  /** A probe of one byte at each offset ends inside the scratch mapping. */
  ghost predicate StayInside(probes: seq<nat>, page: nat)
    requires page > 0
  {
    forall i :: 0 <= i < |probes| ==> probes[i] + RoundUp(1, page) <= SCRATCH_LEN
  }

  /** Every power of two from the smallest page on, in order. */
  ghost predicate AreDoubling(probes: seq<nat>) {
    forall i :: 0 <= i < |probes| ==> probes[i] == Pow2(12 + i)
  }

  lemma OneMoreInside(probes: seq<nat>, probe: nat, page: nat)
    requires page > 0 && StayInside(probes, page) && probe + RoundUp(1, page) <= SCRATCH_LEN
    ensures StayInside(probes + [probe], page)
  {
  }

  lemma OneMoreDoubling(probes: seq<nat>, probe: nat)
    requires AreDoubling(probes) && probe == Pow2(12 + |probes|)
    ensures AreDoubling(probes + [probe])
  {
  }

  /**
   * Tries growing power-of-two offsets into a scratch mapping at `base`; the kernel accepts an
   * address that is a multiple of its page size. `probes` are the offsets tried.
   */
  method ProbePageSize(k: nat, mapping: Option<nat>) returns (page: nat, ghost probes: seq<nat>)
    requires mapping.Some? ==> mapping.value % Pow2(k) == 0
    ensures mapping.None? ==> page == 0
    ensures mapping.Some? ==> page == Probed(k)
    ensures k <= 20 ==> StayInside(probes, Pow2(k))
    ensures mapping.Some? ==> AreDoubling(probes) && |probes| == if k <= 12 then 1 else if k <= 20 then k - 11 else 9
  {
    probes := [];
    if mapping.None? {
      return 0, probes;
    }
    var base := mapping.value;
    page := 0;
    var offset := MIN_PROBE_PAGE;
    ghost var j := 12;
    ProbeBounds();
    while offset <= MAX_PROBE_PAGE
      invariant page == 0 && 12 <= j <= 21 && offset == Pow2(j)
      invariant j == 12 || j <= k
      invariant k <= 20 ==> StayInside(probes, Pow2(k))
      invariant |probes| == j - 12 && AreDoubling(probes)
      decreases 21 - j
    {
      ProbeStep(base, k, j);
      if k <= 20 {
        OneMoreInside(probes, offset, Pow2(k));
      }
      OneMoreDoubling(probes, offset);
      probes := probes + [offset];
      var accepted := (base + offset) % Pow2(k) == 0;
      if accepted {
        page := offset;
        break;
      }
      offset := offset * 2;
      j := j + 1;
    }
  }

  /** The probe is right exactly for page sizes from 4 KiB to 1 MiB. */
  lemma ProbeIsExact(k: nat)
    ensures Probed(k) == Pow2(k) <==> MIN_PROBE_PAGE <= Pow2(k) <= MAX_PROBE_PAGE
  {
    ProbeBounds();
    if k < 12 {
      BiggerPowerIsMultiple(k, 12);
    } else if k <= 20 {
      BiggerPowerIsMultiple(12, k);
      BiggerPowerIsMultiple(k, 20);
    } else {
      BiggerPowerIsMultiple(20, k);
    }
  }

  /** Remembers the page size once the kernel granted a mapping to probe. */
  class PageSizeCache {
    var cache: nat

    constructor ()
      ensures cache == 0
    {
      cache := 0;
    }

    method PageSize(k: nat, mapping: Option<nat>) returns (page: nat)
      requires mapping.Some? ==> mapping.value % Pow2(k) == 0
      requires cache == 0 || cache == Probed(k)
      modifies this
      ensures cache == 0 || cache == Probed(k)
      ensures page == if old(cache) != 0 || mapping.Some? then Probed(k) else 0
      ensures cache == if old(cache) != 0 then old(cache) else page
    {
      if cache != 0 {
        return cache;
      }
      ghost var probes;
      page, probes := ProbePageSize(k, mapping);
      if page != 0 {
        cache := page;
      }
    }
  }
}
