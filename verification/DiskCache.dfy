/**
 The disk cache configuration and the global usage counters that decide whether a
 body may go to disk.  Sizes are 64-bit integers.
 */
module DiskCache {
  import opened Basics

  datatype Config = Config(enabled: bool, thresholdMB: int, maxSizeMB: int)

  function Threshold(config: Config): int {
    Wrap(config.thresholdMB * 0x10_0000)
  }

  function MaxSize(config: Config): int {
    Wrap(config.maxSizeMB * 0x10_0000)
  }

  /** The global counters. */
  datatype Counts = Counts(diskFiles: int, diskBytes: int, memoryBuffers: int, memoryBytes: int, diskHits: int, memoryHits: int)

  function Counted(counts: Counts, onDisk: bool, size: nat): Counts {
    if onDisk then counts.(diskFiles := counts.diskFiles + 1, diskBytes := counts.diskBytes + size)
    else counts.(memoryBuffers := counts.memoryBuffers + 1, memoryBytes := counts.memoryBytes + size)
  }

  function Clamped(i: int): int {
    if i < 0 then 0 else i
  }

  /** The disk counters are reset when they would become negative. */
  function Uncounted(counts: Counts, onDisk: bool, size: nat): Counts {
    if onDisk then counts.(diskFiles := Clamped(counts.diskFiles - 1), diskBytes := Clamped(counts.diskBytes - size))
    else counts.(memoryBuffers := counts.memoryBuffers - 1, memoryBytes := counts.memoryBytes - size)
  }

  /** Closing undoes what creating counted, exactly when no clamp can fire. */
  lemma UncountingUndoesIff(counts: Counts, onDisk: bool, size: nat)
    ensures Uncounted(Counted(counts, onDisk, size), onDisk, size) == counts
            <==> !onDisk || (counts.diskFiles >= 0 && counts.diskBytes >= 0)
  {
  }

  /** What closing does to counters that were reset meanwhile: they end at zero instead of
      below it, each on its own, and nothing else changes. */
  lemma UncountingNeverGoesNegative(counts: Counts, size: nat)
    ensures var r := Uncounted(counts, true, size);
            && (counts.diskFiles <= 1 <==> r.diskFiles == 0) && (counts.diskFiles > 1 ==> r.diskFiles + 1 == counts.diskFiles)
            && (counts.diskBytes <= size <==> r.diskBytes == 0) && (counts.diskBytes > size ==> r.diskBytes + size == counts.diskBytes)
            && r.(diskFiles := counts.diskFiles, diskBytes := counts.diskBytes) == counts
  {
  }

  class Usage {
    var counts: Counts

    method IncrementDiskFiles(size: nat)
      modifies this
      ensures counts == Counted(old(counts), true, size)
    {
      counts := counts.(diskFiles := counts.diskFiles + 1);
      counts := counts.(diskBytes := counts.diskBytes + size);
    }

    method DecrementDiskFiles(size: nat)
      modifies this
      ensures counts == Uncounted(old(counts), true, size)
    {
      counts := counts.(diskFiles := counts.diskFiles - 1);
      if counts.diskFiles < 0 {
        counts := counts.(diskFiles := 0);
      }
      counts := counts.(diskBytes := counts.diskBytes - size);
      if counts.diskBytes < 0 {
        counts := counts.(diskBytes := 0);
      }
    }

    method IncrementMemoryBuffers(size: nat)
      modifies this
      ensures counts == Counted(old(counts), false, size)
    {
      counts := counts.(memoryBuffers := counts.memoryBuffers + 1);
      counts := counts.(memoryBytes := counts.memoryBytes + size);
    }

    method DecrementMemoryBuffers(size: nat)
      modifies this
      ensures counts == Uncounted(old(counts), false, size)
    {
      counts := counts.(memoryBuffers := counts.memoryBuffers - 1);
      counts := counts.(memoryBytes := counts.memoryBytes - size);
    }
  }

  /** Room for `size` more bytes on disk; the sum is a 64-bit one. */
  predicate IsDiskCacheAvailable(config: Config, counts: Counts, size: int) {
    config.enabled && Wrap(counts.diskBytes + size) <= MaxSize(config)
  }

  predicate WantsDisk(config: Config, counts: Counts, size: int) {
    config.enabled && size >= Threshold(config) && IsDiskCacheAvailable(config, counts, size)
  }

  /** When a body goes to disk, in megabytes as configured: it is at least as large as the
      threshold, and what is stored stays within the limit. */
  lemma WantsDiskIff(config: Config, counts: Counts, size: nat)
    requires 0 <= config.thresholdMB <= 0x7FF_FFFF_FFFF && 0 <= config.maxSizeMB <= 0x7FF_FFFF_FFFF
    requires 0 <= counts.diskBytes && counts.diskBytes + size <= MAX_INT64
    ensures WantsDisk(config, counts, size) <==>
            && config.enabled
            && size >= config.thresholdMB * 1024 * 1024
            && counts.diskBytes + size <= config.maxSizeMB * 1024 * 1024
  {
    WrapFacts(config.thresholdMB * 0x10_0000);
    WrapFacts(config.maxSizeMB * 0x10_0000);
    WrapFacts(counts.diskBytes + size);
  }

  /** The disk limit, one body at a time: a body that passed the check on its declared
      length keeps the limit whatever its actual length, as long as that is no larger,
      exactly when the sum that was checked did not overflow. */
  lemma LimitKeptIff(config: Config, counts: Counts, declared: nat)
    requires 0 <= counts.diskBytes <= MaxSize(config) && declared <= MAX_INT64 && WantsDisk(config, counts, declared)
    ensures (forall actual: nat | actual <= declared :: Counted(counts, true, actual).diskBytes <= MaxSize(config))
            <==> counts.diskBytes + declared <= MAX_INT64
  {
    WrapFacts(counts.diskBytes + declared);
    WrapFacts(config.maxSizeMB * 0x10_0000);
    if counts.diskBytes + declared > MAX_INT64 {
      assert Counted(counts, true, declared).diskBytes > MaxSize(config);
    }
  }

  /** An overflow that does get through, for every configured limit: the counter stands at
      the limit and the largest length is declared. */
  lemma OverflowPassesCheck(config: Config, counts: Counts)
    requires config.enabled && 0 < counts.diskBytes == MaxSize(config)
    ensures WantsDisk(config, counts, MAX_INT64) && Counted(counts, true, 1).diskBytes > MaxSize(config)
  {
    WrapFacts(counts.diskBytes + MAX_INT64);
    WrapFacts(config.maxSizeMB * 0x10_0000);
    WrapFacts(config.thresholdMB * 0x10_0000);
  }
}
