/** The configuration and the usage counters of the disk cache
    (common/disk_cache_config.go). */
module DiskCache {

  const MEGABYTE := 0x10_0000

  datatype Config = Config(enabled: bool, thresholdMB: int, maxSizeMB: int)
  {
    function ThresholdBytes(): int { thresholdMB * MEGABYTE }

    function MaxBytes(): int { maxSizeMB * MEGABYTE }
  }

  datatype Stats = Stats(
    diskFiles: int,
    diskBytes: int,
    memoryBuffers: int,
    memoryBytes: int,
    diskHits: int,
    memoryHits: int)

  const NO_USAGE := Stats(0, 0, 0, 0, 0, 0)

  function AddDisk(s: Stats, size: int): Stats {
    s.(diskFiles := s.diskFiles + 1, diskBytes := s.diskBytes + size)
  }

  /** Counters that would become negative are set to zero. */
  function DropDisk(s: Stats, size: int): Stats {
    s.(diskFiles := if s.diskFiles - 1 < 0 then 0 else s.diskFiles - 1,
       diskBytes := if s.diskBytes - size < 0 then 0 else s.diskBytes - size)
  }

  function AddMemory(s: Stats, size: int): Stats {
    s.(memoryBuffers := s.memoryBuffers + 1, memoryBytes := s.memoryBytes + size)
  }

  function DropMemory(s: Stats, size: int): Stats {
    s.(memoryBuffers := s.memoryBuffers - 1, memoryBytes := s.memoryBytes - size)
  }

  function HitDisk(s: Stats): Stats { s.(diskHits := s.diskHits + 1) }

  function HitMemory(s: Stats): Stats { s.(memoryHits := s.memoryHits + 1) }

  /** `IsDiskCacheAvailable`. */
  predicate Available(cfg: Config, s: Stats, requestSize: int) {
    cfg.enabled && s.diskBytes + requestSize <= cfg.MaxBytes()
  }

  /** The global counters. */
  class DiskCacheStats {
    var diskFiles: int
    var diskBytes: int
    var memoryBuffers: int
    var memoryBytes: int
    var diskHits: int
    var memoryHits: int

    function State(): Stats
      reads this
    {
      Stats(diskFiles, diskBytes, memoryBuffers, memoryBytes, diskHits, memoryHits)
    }

    constructor ()
      ensures State() == NO_USAGE
    {
      diskFiles, diskBytes, memoryBuffers, memoryBytes, diskHits, memoryHits := 0, 0, 0, 0, 0, 0;
    }

    method IncrementDiskFiles(size: int)
      modifies this
      ensures State() == AddDisk(old(State()), size)
    {
      diskFiles := diskFiles + 1;
      diskBytes := diskBytes + size;
    }

    method DecrementDiskFiles(size: int)
      modifies this
      ensures State() == DropDisk(old(State()), size)
    {
      diskFiles := diskFiles - 1;
      if diskFiles < 0 {
        diskFiles := 0;
      }
      diskBytes := diskBytes - size;
      if diskBytes < 0 {
        diskBytes := 0;
      }
    }

    method IncrementMemoryBuffers(size: int)
      modifies this
      ensures State() == AddMemory(old(State()), size)
    {
      memoryBuffers := memoryBuffers + 1;
      memoryBytes := memoryBytes + size;
    }

    method DecrementMemoryBuffers(size: int)
      modifies this
      ensures State() == DropMemory(old(State()), size)
    {
      memoryBuffers := memoryBuffers - 1;
      memoryBytes := memoryBytes - size;
    }

    method IncrementDiskCacheHits()
      modifies this
      ensures State() == HitDisk(old(State()))
    {
      diskHits := diskHits + 1;
    }

    method IncrementMemoryCacheHits()
      modifies this
      ensures State() == HitMemory(old(State()))
    {
      memoryHits := memoryHits + 1;
    }
  }
}
