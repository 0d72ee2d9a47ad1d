/**
 Choosing between memory and disk for a request body.
 */
module BodyCreation {
  import opened Basics
  import opened BodyStorage
  import opened DiskCache

  datatype Storage = InMemory(memory: MemoryStorage) | OnDisk(disk: DiskStorage)

  datatype Failure = RequestTooLarge | DiskFailed
  datatype Result = Ok(storage: Storage) | Err(failure: Failure)

  /** A fresh, unread storage holding `data`. */
  ghost predicate Holds(storage: Storage, data: Bytes)
    reads if storage.InMemory? then {storage.memory} else {storage.disk, storage.disk.file}
  {
    match storage
    case InMemory(m) => m.Model() == Memory(data, 0, false)
    case OnDisk(d) => d.Valid() && d.Model() == Disk(data, 0, |data|, false)
  }

  /** Falls back to memory when the disk fails (`diskWorks` is false). */
  method CreateBodyStorage(data: Bytes, config: Config, usage: Usage, diskWorks: bool) returns (storage: Storage)
    requires |data| <= MAX_INT64
    modifies usage
    ensures storage.OnDisk? <==> WantsDisk(config, old(usage.counts), |data|) && diskWorks
    ensures Holds(storage, data)
    ensures usage.counts == Counted(old(usage.counts), storage.OnDisk?, |data|)
    ensures storage.OnDisk? && 0 <= old(usage.counts).diskBytes <= MaxSize(config) ==>
              (usage.counts.diskBytes <= MaxSize(config) <==> old(usage.counts).diskBytes + |data| <= MAX_INT64)
  {
    WrapFacts(usage.counts.diskBytes + |data|);
    WrapFacts(config.maxSizeMB * 0x10_0000);
    if config.enabled && |data| >= Threshold(config) && IsDiskCacheAvailable(config, usage.counts, |data|) {
      if !diskWorks {
        var m := new MemoryStorage(data);
        usage.IncrementMemoryBuffers(|data|);
        return InMemory(m);
      }
      var d := new DiskStorage(data);
      usage.IncrementDiskFiles(|data|);
      return OnDisk(d);
    }
    var m := new MemoryStorage(data);
    usage.IncrementMemoryBuffers(|data|);
    return InMemory(m);
  }

  /** A large declared length goes straight to disk, where a failure is final because
      the stream has been consumed; everything else is read into memory first. */
  method CreateBodyStorageFromReader(stream: Bytes, contentLength: int, maxBytes: int, config: Config, usage: Usage, diskWorks: bool)
    returns (r: Result)
    requires IsInt64(maxBytes) && IsInt64(contentLength) && |stream| <= MAX_INT64
    modifies usage
    ensures var direct := contentLength > 0 && WantsDisk(config, old(usage.counts), contentLength);
            var wanted := FromReader(stream, maxBytes);
            if direct && !diskWorks then r == Err(DiskFailed) && usage.counts == old(usage.counts)
            else match wanted
              case TooLarge => r == Err(RequestTooLarge) && usage.counts == old(usage.counts)
              case Body(data) =>
                && r.Ok? && Holds(r.storage, data)
                && (r.storage.OnDisk? <==> direct || (WantsDisk(config, old(usage.counts), |data|) && diskWorks))
                && usage.counts == Hit(Counted(old(usage.counts), r.storage.OnDisk?, |data|), r.storage.OnDisk?)
                && usage.counts.diskHits == old(usage.counts).diskHits + (if r.storage.OnDisk? then 1 else 0)
                && usage.counts.memoryHits == old(usage.counts).memoryHits + (if r.storage.OnDisk? then 0 else 1)
                && (r.storage.OnDisk? && 0 <= old(usage.counts).diskBytes ==>
                      var declared := if direct then contentLength else |data|;
                      |data| <= declared && old(usage.counts).diskBytes + declared <= MAX_INT64 ==>
                        usage.counts.diskBytes <= MaxSize(config))
  {
    WrapFacts(usage.counts.diskBytes + contentLength);
    if config.enabled && contentLength > 0 && contentLength >= Threshold(config)
       && IsDiskCacheAvailable(config, usage.counts, contentLength)
    {
      if !diskWorks {
        return Err(DiskFailed);
      }
      var written := Limited(stream, maxBytes);
      if |written| > maxBytes {
        return Err(RequestTooLarge);
      }
      var d := new DiskStorage(written);
      usage.IncrementDiskFiles(|written|);
      usage.counts := Hit(usage.counts, true);
      return Ok(OnDisk(d));
    }
    var data := Limited(stream, maxBytes);
    if |data| > maxBytes {
      return Err(RequestTooLarge);
    }
    WrapFacts(usage.counts.diskBytes + |data|);
    var storage := CreateBodyStorage(data, config, usage, diskWorks);
    usage.counts := Hit(usage.counts, storage.OnDisk?);
    return Ok(storage);
  }

  function Hit(counts: Counts, onDisk: bool): Counts {
    if onDisk then counts.(diskHits := counts.diskHits + 1) else counts.(memoryHits := counts.memoryHits + 1)
  }
}
