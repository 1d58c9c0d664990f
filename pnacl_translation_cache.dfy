/** The PNaCl translation cache: a disk (or in-memory) cache of translated
    nexes keyed by a string built from the pexe's URL, ABI version,
    optimisation level, modification time and etag. Each store or lookup is a
    PnaclTranslationCacheEntry that walks Open -> (Create) -> Transfer* -> Close
    as the disk cache completes its requests, and reports the outcome to the
    user callback once.

    The disk cache backend is not modelled: a request the entry issues is
    recorded, and its completion is the `rv` handed to DispatchNext. */
module PnaclTranslationCache {
  import opened Wrappers

  const kMaxDiskCacheSize: int := 1000 * 1024 * 1024
  const kMaxMemCacheSize: int := 100 * 1024 * 1024

  /** The net error codes the entry tests for. */
  const OK: int := 0
  const ERR_IO_PENDING: int := -1

  datatype CacheStep = UNINITIALIZED | OPEN_ENTRY | CREATE_ENTRY | TRANSFER_ENTRY | CLOSE_ENTRY

  datatype CacheType = DISK_CACHE | MEMORY_CACHE

  /** The last request an entry issued to the disk cache. */
  datatype Request =
    | NoRequest
    | OpenRequest
    | CreateRequest
    | ReadRequest(offset: int, len: int)
    | WriteRequest(offset: int, len: int)

  /** A net::DrainableIOBuffer: its size and how much of it is consumed. */
  datatype Buffer = Buffer(size: int, consumed: int)
  {
    function BytesRemaining(): int
    {
      size - consumed
    }
  }

  /** What a PnaclTranslationCacheEntry holds. `entryOpen` is entry_ != NULL;
      `callbackPending` is the user callback not yet reset; `results` are the
      values the callback was run with; `finishCalls` counts the calls to
      Finish (each of which calls OpComplete on the cache). */
  datatype EntryState = EntryState(
    step: CacheStep,
    isRead: bool,
    entryOpen: bool,
    doomed: bool,
    closePosted: bool,
    callbackPending: bool,
    results: seq<int>,
    buffer: Option<Buffer>,
    request: Request,
    finishCalls: nat)

  /** A write entry always carries the nexe to write; a read entry has a
      buffer from the moment its transfer starts, and is never created. */
  ghost predicate Valid(s: EntryState)
  {
    (!s.isRead ==> s.buffer.Some?) &&
    (s.step == TRANSFER_ENTRY ==> s.buffer.Some?) &&
    (s.step == CREATE_ENTRY ==> !s.isRead)
  }

  // ---------------------------------------------------------------------------
  // The state machine, as functions of the entry's state

  /** PnaclTranslationCacheEntry::Finish: run the callback if it is still set,
      reset it, and tell the cache the operation is complete. */
  function FinishState(s: EntryState, rv: int): EntryState
  {
    s.(callbackPending := false,
       results := if s.callbackPending then s.results + [rv] else s.results,
       finishCalls := s.finishCalls + 1)
  }

  /** PnaclTranslationCacheEntry::CloseEntry: doom the entry on error, post its
      close, then Finish. */
  function CloseState(s: EntryState, rv: int): EntryState
  {
    FinishState(s.(doomed := s.doomed || rv < 0, closePosted := true), rv)
  }

  /** The transfer request for what is left of the buffer. */
  function TransferRequest(isRead: bool, b: Buffer): Request
  {
    if isRead then ReadRequest(b.consumed, b.BytesRemaining())
    else WriteRequest(b.consumed, b.BytesRemaining())
  }

  /** PnaclTranslationCacheEntry::DispatchNext with a live cache: the effect of
      one completion `rv`. `dataSize` is what the opened entry reports as its
      data size (read only when a read entry opens). */
  function Next(s: EntryState, rv: int, dataSize: int): EntryState
    requires Valid(s)
  {
    match s.step
    case UNINITIALIZED => s
    case OPEN_ENTRY =>
      if rv == OK then
        if s.isRead then
          s.(step := TRANSFER_ENTRY, entryOpen := true, buffer := Some(Buffer(dataSize, 0)),
             request := ReadRequest(0, dataSize))
        else
          s.(step := TRANSFER_ENTRY, entryOpen := true, request := WriteRequest(0, s.buffer.value.size))
      else if s.isRead then FinishState(s.(entryOpen := false), rv)
      else s.(step := CREATE_ENTRY, request := CreateRequest)
    case CREATE_ENTRY =>
      if rv == OK then
        s.(step := TRANSFER_ENTRY, entryOpen := true, request := TransferRequest(false, s.buffer.value))
      else FinishState(s, rv)
    case TRANSFER_ENTRY =>
      if rv < 0 then CloseState(s.(step := CLOSE_ENTRY), rv)
      else
        var b := if rv > 0 then s.buffer.value.(consumed := s.buffer.value.consumed + rv) else s.buffer.value;
        if rv > 0 && b.BytesRemaining() > 0 then
          s.(buffer := Some(b), request := TransferRequest(s.isRead, b))
        else
          CloseState(s.(step := CLOSE_ENTRY, buffer := Some(if s.isRead then b.(consumed := 0) else b)), 0)
    case CLOSE_ENTRY => s.(step := UNINITIALIZED)
  }

  /** The entry as Start leaves it. */
  function Started(isRead: bool, buffer: Option<Buffer>, hasCallback: bool): EntryState
  {
    EntryState(OPEN_ENTRY, isRead, false, false, false, hasCallback, [], buffer, OpenRequest, 0)
  }

  /** A sequence of completions delivered to DispatchNext. */
  function Run(s: EntryState, rvs: seq<int>, dataSize: int): (r: EntryState)
    requires Valid(s)
    ensures Valid(r)
    decreases |rvs|
  {
    if rvs == [] then s
    else
      NextPreservesValid(s, rvs[0], dataSize);
      Run(Next(s, rvs[0], dataSize), rvs[1..], dataSize)
  }

  lemma NextPreservesValid(s: EntryState, rv: int, dataSize: int)
    requires Valid(s)
    ensures Valid(Next(s, rv, dataSize))
  {
  }

  // ---------------------------------------------------------------------------
  // Properties of the state machine

  /** The user callback is run at most once: whatever has been reported plus a
      callback still pending never exceeds one. */
  ghost predicate CallbackOnce(s: EntryState)
  {
    |s.results| + (if s.callbackPending then 1 else 0) <= 1
  }

  lemma NextKeepsCallbackOnce(s: EntryState, rv: int, dataSize: int)
    requires Valid(s) && CallbackOnce(s)
    ensures CallbackOnce(Next(s, rv, dataSize))
    ensures |Next(s, rv, dataSize).results| >= |s.results|
  {
  }

  /** Over any sequence of completions, a started entry reports at most one
      result, and reports one exactly once Finish has run with a callback set. */
  lemma {:induction false} RunReportsAtMostOnce(s: EntryState, rvs: seq<int>, dataSize: int)
    requires Valid(s) && CallbackOnce(s)
    ensures CallbackOnce(Run(s, rvs, dataSize))
    ensures |Run(s, rvs, dataSize).results| <= 1
    decreases |rvs|
  {
    if rvs != [] {
      NextKeepsCallbackOnce(s, rvs[0], dataSize);
      NextPreservesValid(s, rvs[0], dataSize);
      RunReportsAtMostOnce(Next(s, rvs[0], dataSize), rvs[1..], dataSize);
    }
  }

  /** While transferring, the outstanding request is exactly the rest of the
      buffer. */
  ghost predicate RequestMatchesBuffer(s: EntryState)
  {
    s.step == TRANSFER_ENTRY ==>
      s.buffer.Some? && s.request == TransferRequest(s.isRead, s.buffer.value) &&
      0 <= s.buffer.value.consumed <= s.buffer.value.size
  }

  /** A completion the disk cache can deliver: a transfer never reports more
      bytes than were requested. */
  ghost predicate Conforms(s: EntryState, rv: int)
  {
    s.step == TRANSFER_ENTRY && (s.request.ReadRequest? || s.request.WriteRequest?) ==>
      rv <= s.request.len
  }

  /** With conforming completions, a transfer never consumes past the end of
      the buffer and always asks for exactly what is left. */
  lemma NextKeepsRequestMatchesBuffer(s: EntryState, rv: int, dataSize: int)
    requires Valid(s) && RequestMatchesBuffer(s) && Conforms(s, rv)
    requires s.step == OPEN_ENTRY && s.isRead && rv == OK ==> dataSize >= 0
    requires s.step in {OPEN_ENTRY, CREATE_ENTRY} && !s.isRead ==>
             0 <= s.buffer.value.consumed <= s.buffer.value.size
    requires s.step == OPEN_ENTRY && !s.isRead ==> s.buffer.value.consumed == 0
    ensures RequestMatchesBuffer(Next(s, rv, dataSize))
  {
  }

  /** The buffer never runs past its end, a write entry is opened on an
      unconsumed nexe, and a transfer asks for exactly what is left. */
  ghost predicate Transferable(s: EntryState)
  {
    Valid(s) && RequestMatchesBuffer(s) &&
    (s.buffer.Some? ==> 0 <= s.buffer.value.consumed <= s.buffer.value.size) &&
    (s.step == OPEN_ENTRY && !s.isRead ==> s.buffer.value.consumed == 0)
  }

  /** Every completion of `rvs`, in the state it reaches, is one the disk
      cache can deliver. */
  ghost predicate ConformingRun(s: EntryState, rvs: seq<int>, dataSize: int)
    requires Valid(s)
    decreases |rvs|
  {
    if rvs == [] then true
    else
      NextPreservesValid(s, rvs[0], dataSize);
      Conforms(s, rvs[0]) && ConformingRun(Next(s, rvs[0], dataSize), rvs[1..], dataSize)
  }

  lemma NextKeepsTransferable(s: EntryState, rv: int, dataSize: int)
    requires Transferable(s) && Conforms(s, rv) && dataSize >= 0
    ensures Transferable(Next(s, rv, dataSize))
  {
    NextPreservesValid(s, rv, dataSize);
    NextKeepsRequestMatchesBuffer(s, rv, dataSize);
    BufferStaysBounded(s, rv, dataSize);
  }

  lemma BufferStaysBounded(s: EntryState, rv: int, dataSize: int)
    requires Transferable(s) && Conforms(s, rv) && dataSize >= 0
    ensures var t := Next(s, rv, dataSize);
            (t.buffer.Some? ==> 0 <= t.buffer.value.consumed <= t.buffer.value.size) &&
            (t.step == OPEN_ENTRY && !t.isRead ==> t.buffer.value.consumed == 0)
  {
    if s.step == TRANSFER_ENTRY {
      TransferStaysBounded(s, rv, dataSize);
    }
  }

  /** A transfer completion never moves the consumed count past the end. */
  lemma TransferStaysBounded(s: EntryState, rv: int, dataSize: int)
    requires Valid(s) && s.step == TRANSFER_ENTRY && RequestMatchesBuffer(s) && Conforms(s, rv)
    ensures var t := Next(s, rv, dataSize);
            t.step != OPEN_ENTRY && t.buffer.Some? && 0 <= t.buffer.value.consumed <= t.buffer.value.size
  {
    var b := s.buffer.value;
    assert 0 <= rv ==> rv <= b.size - b.consumed;
  }

  /** Over any sequence of completions the disk cache can deliver, with a
      non-negative entry size, the consumed count stays within 0..size
      (DidConsume's own check) and every transfer request is the rest of the
      buffer. */
  lemma {:induction false} RunKeepsTransferable(s: EntryState, rvs: seq<int>, dataSize: int)
    requires Transferable(s) && dataSize >= 0 && ConformingRun(s, rvs, dataSize)
    ensures Transferable(Run(s, rvs, dataSize))
    decreases |rvs|
  {
    if rvs != [] {
      NextKeepsTransferable(s, rvs[0], dataSize);
      RunKeepsTransferable(Next(s, rvs[0], dataSize), rvs[1..], dataSize);
    }
  }

  /** A started read entry, and a started write entry holding a whole nexe,
      are transferable. */
  lemma StartedTransferable(isRead: bool, size: nat, hasCallback: bool)
    ensures Transferable(Started(isRead, if isRead then None else Some(Buffer(size, 0)), hasCallback))
  {
  }

  /** A negative transfer result dooms the entry, posts its close and reports
      that error. */
  lemma TransferErrorDooms(s: EntryState, rv: int, dataSize: int)
    requires Valid(s) && s.step == TRANSFER_ENTRY && rv < 0
    ensures var t := Next(s, rv, dataSize);
            t.doomed && t.closePosted && t.step == CLOSE_ENTRY && !t.callbackPending &&
            t.results == s.results + (if s.callbackPending then [rv] else [])
  {
  }

  /** A read that misses finishes with the miss and never transfers: no
      buffer, no open entry, nothing doomed or closed. */
  lemma ReadMiss(hasCallback: bool, rv: int, dataSize: int)
    requires rv != OK
    ensures var t := Next(Started(true, None, hasCallback), rv, dataSize);
            t.step == OPEN_ENTRY && !t.entryOpen && t.buffer.None? && !t.closePosted &&
            t.results == (if hasCallback then [rv] else []) && t.finishCalls == 1
  {
  }

  /** A write whose open fails tries to create the entry; if that fails too,
      the write finishes with the create error and transfers nothing. */
  lemma WriteCreateFails(size: int, hasCallback: bool, rvOpen: int, rvCreate: int, dataSize: int)
    requires rvOpen != OK && rvCreate != OK
    ensures var s1 := Next(Started(false, Some(Buffer(size, 0)), hasCallback), rvOpen, dataSize);
            s1.step == CREATE_ENTRY && s1.request == CreateRequest && s1.results == [] &&
            var s2 := Next(s1, rvCreate, dataSize);
            s2.step == CREATE_ENTRY && s2.buffer == Some(Buffer(size, 0)) && !s2.closePosted &&
            s2.results == (if hasCallback then [rvCreate] else [])
  {
  }

  function Sum(xs: seq<int>): int
  {
    if xs == [] then 0 else xs[0] + Sum(xs[1..])
  }

  /** Transferring the rest of a buffer in positive chunks that add up to it
      closes the entry cleanly and reports success once; a written buffer ends
      fully consumed, a read one is rewound to offset 0. */
  lemma {:induction false} TransferCompletes(s: EntryState, chunks: seq<int>, dataSize: int)
    requires Valid(s) && s.step == TRANSFER_ENTRY
    requires 0 <= s.buffer.value.consumed < s.buffer.value.size
    requires chunks != [] && forall i :: 0 <= i < |chunks| ==> chunks[i] > 0
    requires Sum(chunks) == s.buffer.value.BytesRemaining()
    ensures var t := Run(s, chunks, dataSize);
            t.step == CLOSE_ENTRY && t.closePosted && t.doomed == s.doomed && t.entryOpen == s.entryOpen &&
            !t.callbackPending && t.results == s.results + (if s.callbackPending then [0] else []) &&
            t.finishCalls == s.finishCalls + 1 &&
            t.buffer == Some(s.buffer.value.(consumed := if s.isRead then 0 else s.buffer.value.size))
    decreases |chunks|
  {
    var b := s.buffer.value;
    var b' := b.(consumed := b.consumed + chunks[0]);
    if |chunks| == 1 {
      assert Run(s, chunks, dataSize) == Next(s, chunks[0], dataSize);
    } else {
      assert chunks[0] + Sum(chunks[1..]) == b.BytesRemaining();
      SumPositive(chunks[1..]);
      var s1 := Next(s, chunks[0], dataSize);
      assert s1 == s.(buffer := Some(b'), request := TransferRequest(s.isRead, b'));
      TransferCompletes(s1, chunks[1..], dataSize);
    }
  }

  lemma {:induction false} SumPositive(xs: seq<int>)
    requires xs != [] && forall i :: 0 <= i < |xs| ==> xs[i] > 0
    ensures Sum(xs) > 0
  {
    if |xs| > 1 {
      SumPositive(xs[1..]);
    }
  }

  /** A whole store: the entry opens, the nexe is written in positive chunks
      adding up to its size, and the entry closes having reported OK once. */
  lemma StoreSucceeds(size: int, hasCallback: bool, chunks: seq<int>, dataSize: int)
    requires size > 0
    requires chunks != [] && forall i :: 0 <= i < |chunks| ==> chunks[i] > 0
    requires Sum(chunks) == size
    ensures var t := Run(Started(false, Some(Buffer(size, 0)), hasCallback), [OK] + chunks, dataSize);
            t.step == CLOSE_ENTRY && t.entryOpen && t.closePosted && !t.doomed &&
            t.results == (if hasCallback then [OK] else []) && t.finishCalls == 1 &&
            t.buffer == Some(Buffer(size, size))
  {
    var s0 := Started(false, Some(Buffer(size, 0)), hasCallback);
    var s1 := Next(s0, OK, dataSize);
    assert ([OK] + chunks)[1..] == chunks;
    assert Run(s0, [OK] + chunks, dataSize) == Run(s1, chunks, dataSize);
    TransferCompletes(s1, chunks, dataSize);
  }

  // ---------------------------------------------------------------------------
  // The objects

  /** PnaclTranslationCache: the open entries, the backend and its
      initialisation. `alive` is false once the cache is destroyed, which
      invalidates the entries' weak pointers to it. */
  class Cache {
    var alive: bool
    var openEntries: set<Entry>
    var inMemory: bool
    var hasBackend: bool
    var backendEntryCount: nat
    var backendRequest: Option<(CacheType, int)>
    var initCallbackPending: bool
    var initResults: seq<int>

    constructor ()
      ensures alive && openEntries == {} && !inMemory && !hasBackend
      ensures backendRequest == None && !initCallbackPending && initResults == []
    {
      alive := true;
      openEntries := {};
      inMemory := false;
      hasBackend := false;
      backendEntryCount := 0;
      backendRequest := None;
      initCallbackPending := false;
      initResults := [];
    }

    /** PnaclTranslationCache::OpComplete. */
    method OpComplete(e: Entry)
      modifies this`openEntries
      ensures openEntries == old(openEntries) - {e}
    {
      openEntries := openEntries - {e};
    }

    /** PnaclTranslationCache::Size: -1 without a backend, otherwise the
      backend's entry count. */
    function Size(): (r: int)
      reads this
      ensures r == -1 <==> !hasBackend
      ensures r >= 0 ==> r == backendEntryCount
    {
      if !hasBackend then -1 else backendEntryCount
    }

    /** PnaclTranslationCache::OnCreateBackendComplete: run the init callback
      at most once. */
    method OnCreateBackendComplete(rv: int)
      modifies this`initCallbackPending, this`initResults
      ensures !initCallbackPending
      ensures initResults == old(initResults) + (if old(initCallbackPending) then [rv] else [])
    {
      if initCallbackPending {
        initResults := initResults + [rv];
        initCallbackPending := false;
      }
    }

    /** PnaclTranslationCache::InitCache and Init: ask for a memory backend of
      kMaxMemCacheSize or a disk backend of kMaxDiskCacheSize. `rv` is what
      backend creation returns and `backendCreated` whether it stored a
      backend; a result other than ERR_IO_PENDING runs the callback at once. */
    method InitCache(inMem: bool, hasCallback: bool, rv: int, backendCreated: bool) returns (r: int)
      modifies this`inMemory, this`backendRequest, this`hasBackend,
               this`initCallbackPending, this`initResults
      ensures r == rv && inMemory == inMem
      ensures backendRequest == Some(if inMem then (MEMORY_CACHE, kMaxMemCacheSize)
                                     else (DISK_CACHE, kMaxDiskCacheSize))
      ensures hasBackend == backendCreated
      ensures rv != ERR_IO_PENDING ==>
                !initCallbackPending && initResults == old(initResults) + (if hasCallback then [rv] else [])
      ensures rv == ERR_IO_PENDING ==> initCallbackPending == hasCallback && initResults == old(initResults)
    {
      inMemory := inMem;
      if inMemory {
        r := Init(MEMORY_CACHE, kMaxMemCacheSize, hasCallback, rv, backendCreated);
      } else {
        r := Init(DISK_CACHE, kMaxDiskCacheSize, hasCallback, rv, backendCreated);
      }
    }

    method Init(cacheType: CacheType, cacheSize: int, hasCallback: bool, rv: int, backendCreated: bool)
      returns (r: int)
      modifies this`backendRequest, this`hasBackend, this`initCallbackPending, this`initResults
      ensures r == rv && backendRequest == Some((cacheType, cacheSize)) && hasBackend == backendCreated
      ensures rv != ERR_IO_PENDING ==>
                !initCallbackPending && initResults == old(initResults) + (if hasCallback then [rv] else [])
      ensures rv == ERR_IO_PENDING ==> initCallbackPending == hasCallback && initResults == old(initResults)
    {
      backendRequest := Some((cacheType, cacheSize));
      hasBackend := backendCreated;
      initCallbackPending := hasCallback;
      if rv != ERR_IO_PENDING {
        OnCreateBackendComplete(rv);
      }
      r := rv;
    }

    /** PnaclTranslationCache::StoreNexe: a write entry for the nexe, recorded
      as open and started. */
    method StoreNexe(key: string, nexe: Buffer, hasCallback: bool) returns (e: Entry)
      modifies this`openEntries
      ensures fresh(e) && e.cache == this && e.key == key
      ensures openEntries == old(openEntries) + {e}
      ensures e.State() == Started(false, Some(nexe), hasCallback)
    {
      e := new Entry(this, key, false, Some(nexe), hasCallback);
      openEntries := openEntries + {e};
      e.Start();
    }

    /** PnaclTranslationCache::GetNexe: a read entry, recorded as open and
      started. */
    method GetNexe(key: string, hasCallback: bool) returns (e: Entry)
      modifies this`openEntries
      ensures fresh(e) && e.cache == this && e.key == key
      ensures openEntries == old(openEntries) + {e}
      ensures e.State() == Started(true, None, hasCallback)
    {
      e := new Entry(this, key, true, None, hasCallback);
      openEntries := openEntries + {e};
      e.Start();
    }
  }

  /** PnaclTranslationCacheEntry. */
  class Entry {
    const cache: Cache
    const key: string
    const isRead: bool
    var step: CacheStep
    var entryOpen: bool
    var doomed: bool
    var closePosted: bool
    var callbackPending: bool
    var results: seq<int>
    var buffer: Option<Buffer>
    var request: Request
    var finishCalls: nat

    function State(): EntryState
      reads this
    {
      EntryState(step, isRead, entryOpen, doomed, closePosted, callbackPending, results,
                 buffer, request, finishCalls)
    }

    /** GetReadEntry / GetWriteEntry: a read entry has no buffer yet, a write
      entry holds the nexe. */
    constructor (cache: Cache, key: string, isRead: bool, buffer: Option<Buffer>, hasCallback: bool)
      ensures this.cache == cache && this.key == key
      ensures State() == EntryState(UNINITIALIZED, isRead, false, false, false, hasCallback, [],
                                    buffer, NoRequest, 0)
    {
      this.cache := cache;
      this.key := key;
      this.isRead := isRead;
      step := UNINITIALIZED;
      entryOpen := false;
      doomed := false;
      closePosted := false;
      callbackPending := hasCallback;
      results := [];
      this.buffer := buffer;
      request := NoRequest;
      finishCalls := 0;
    }

    method Start()
      modifies this`step, this`request
      ensures step == OPEN_ENTRY && request == OpenRequest
    {
      step := OPEN_ENTRY;
      OpenEntry();
    }

    method OpenEntry()
      modifies this`request
      ensures request == OpenRequest
    {
      request := OpenRequest;
    }

    method CreateEntry()
      modifies this`request
      ensures request == CreateRequest
    {
      request := CreateRequest;
    }

    method ReadEntry(offset: int, len: int)
      modifies this`request
      ensures request == ReadRequest(offset, len)
    {
      request := ReadRequest(offset, len);
    }

    method WriteEntry(offset: int, len: int)
      modifies this`request
      ensures request == WriteRequest(offset, len)
    {
      request := WriteRequest(offset, len);
    }

    method Finish(rv: int)
      modifies this, cache`openEntries
      ensures State() == FinishState(old(State()), rv)
      ensures cache.openEntries == old(cache.openEntries) - {this}
    {
      if callbackPending {
        results := results + [rv];
        callbackPending := false;
      }
      finishCalls := finishCalls + 1;
      cache.OpComplete(this);
    }

    method CloseEntry(rv: int)
      modifies this, cache`openEntries
      ensures State() == CloseState(old(State()), rv)
      ensures cache.openEntries == old(cache.openEntries) - {this}
    {
      if rv < 0 {
        doomed := true;
      }
      closePosted := true;
      Finish(rv);
    }

    /** PnaclTranslationCacheEntry::DispatchNext: nothing once the cache is
      gone; otherwise one step of the machine, removing the entry from the
      cache's open entries whenever it finishes. */
    method DispatchNext(rv: int, dataSize: int)
      requires Valid(State())
      modifies this, cache`openEntries
      ensures !cache.alive ==> State() == old(State()) && cache.openEntries == old(cache.openEntries)
      ensures cache.alive ==> State() == Next(old(State()), rv, dataSize)
      ensures cache.alive ==>
                cache.openEntries == (if finishCalls > old(finishCalls) then old(cache.openEntries) - {this}
                                      else old(cache.openEntries))
    {
      if !cache.alive {
        return;
      }
      match step {
        case UNINITIALIZED =>
        case OPEN_ENTRY =>
          if rv == OK {
            step := TRANSFER_ENTRY;
            entryOpen := true;
            if isRead {
              buffer := Some(Buffer(dataSize, 0));
              ReadEntry(0, dataSize);
            } else {
              WriteEntry(0, buffer.value.size);
            }
          } else if isRead {
            entryOpen := false;
            Finish(rv);
          } else {
            step := CREATE_ENTRY;
            CreateEntry();
          }
        case CREATE_ENTRY =>
          if rv == OK {
            step := TRANSFER_ENTRY;
            entryOpen := true;
            WriteEntry(buffer.value.consumed, buffer.value.BytesRemaining());
          } else {
            Finish(rv);
          }
        case TRANSFER_ENTRY =>
          if rv < 0 {
            step := CLOSE_ENTRY;
            CloseEntry(rv);
            return;
          }
          if rv > 0 {
            buffer := Some(buffer.value.(consumed := buffer.value.consumed + rv));
            if buffer.value.BytesRemaining() > 0 {
              if isRead {
                ReadEntry(buffer.value.consumed, buffer.value.BytesRemaining());
              } else {
                WriteEntry(buffer.value.consumed, buffer.value.BytesRemaining());
              }
              return;
            }
          }
          step := CLOSE_ENTRY;
          if isRead {
            buffer := Some(buffer.value.(consumed := 0));
          }
          CloseEntry(0);
        case CLOSE_ENTRY =>
          step := UNINITIALIZED;
      }
    }
  }

  // ---------------------------------------------------------------------------
  // Cache keys

  /** A GURL as far as the key needs it. */
  datatype Url = Url(isValid: bool, spec: string)

  /** base::Time::Exploded. */
  datatype Exploded = Exploded(year: int, month: int, dayOfWeek: int, dayOfMonth: int,
                               hour: int, minute: int, second: int, millisecond: int)

  /** nacl::PnaclCacheInfo; a null last-modified time is None. */
  datatype PnaclCacheInfo = PnaclCacheInfo(pexeUrl: Url, abiVersion: int, optLevel: int,
                                           lastModified: Option<Exploded>, etag: string)

  function DigitChar(d: int): char
    requires 0 <= d < 10
  {
    ('0' as int + d) as char
  }

  predicate IsDigit(c: char)
  {
    '0' <= c <= '9'
  }

  /** base::IntToString on a non-negative value. */
  function NatToString(n: nat): (s: string)
    ensures |s| >= 1 && forall i :: 0 <= i < |s| ==> IsDigit(s[i])
  {
    if n < 10 then [DigitChar(n)] else NatToString(n / 10) + [DigitChar(n % 10)]
  }

  /** base::IntToString. */
  function IntToString(n: int): string
  {
    if n < 0 then "-" + NatToString(-n) else NatToString(n)
  }

  /** The value of a string of decimal digits. */
  function ParseNat(s: string): nat
  {
    if s == [] then 0 else 10 * ParseNat(s[..|s| - 1]) + (if IsDigit(s[|s| - 1]) then s[|s| - 1] as int - '0' as int else 0)
  }

  lemma {:induction false} ParseNatToString(n: nat)
    ensures ParseNat(NatToString(n)) == n
  {
    if n >= 10 {
      var s := NatToString(n);
      assert s[..|s| - 1] == NatToString(n / 10);
      ParseNatToString(n / 10);
    }
  }

  /** The zero date GetKey writes for a null or invalid time. */
  const ZeroExploded := Exploded(0, 0, 0, 0, 0, 0, 0, 0)

  /** PnaclTranslationCache::GetKey. `filteredSpec` is the URL with username,
      password and ref removed (GURL::ReplaceComponents, then spec());
      `hasValidValues` is base::Time::Exploded::HasValidValues. */
  function GetKey(info: PnaclCacheInfo, filteredSpec: Url -> string,
                  hasValidValues: Exploded -> bool): string
  {
    if !info.pexeUrl.isValid || info.abiVersion < 0 || info.optLevel < 0 then ""
    else
      "ABI:" + (IntToString(info.abiVersion) + (";" +
      ("opt:" + (IntToString(info.optLevel) + (";" +
       KeyTail(info, filteredSpec, hasValidValues))))))
  }

  /** The part of a key after "opt:<level>;": the filtered URL, the
      modification date (zero for a null or invalid time) and the etag. */
  function KeyTail(info: PnaclCacheInfo, filteredSpec: Url -> string,
                   hasValidValues: Exploded -> bool): (t: string)
    ensures |t| >= |"etag:" + info.etag| && t[|t| - |"etag:" + info.etag|..] == "etag:" + info.etag
  {
    var e := if info.lastModified.None? || !hasValidValues(info.lastModified.value)
             then ZeroExploded else info.lastModified.value;
    var head :=
      "URL:" + filteredSpec(info.pexeUrl) + ";" +
      "modified:" + IntToString(e.year) + ":" + IntToString(e.month) + ":" +
      IntToString(e.dayOfMonth) + ":" + IntToString(e.hour) + ":" +
      IntToString(e.minute) + ":" + IntToString(e.second) + ":" +
      IntToString(e.millisecond) + ":UTC;";
    DropPrefix(head, "etag:" + info.etag);
    head + ("etag:" + info.etag)
  }

  /** The key is empty exactly for an invalid URL or a negative ABI version or
      optimisation level; otherwise it starts with "ABI:" and ends with the
      etag. */
  lemma GetKeyEmptyIff(info: PnaclCacheInfo, filteredSpec: Url -> string, hasValidValues: Exploded -> bool)
    ensures GetKey(info, filteredSpec, hasValidValues) == "" <==>
            !info.pexeUrl.isValid || info.abiVersion < 0 || info.optLevel < 0
    ensures GetKey(info, filteredSpec, hasValidValues) != "" ==>
            var k := GetKey(info, filteredSpec, hasValidValues);
            |k| >= 4 + |"etag:" + info.etag| && k[..4] == "ABI:" &&
            k[|k| - |"etag:" + info.etag|..] == "etag:" + info.etag
  {
    if info.pexeUrl.isValid && info.abiVersion >= 0 && info.optLevel >= 0 {
      KeyShape(IntToString(info.abiVersion), IntToString(info.optLevel),
               KeyTail(info, filteredSpec, hasValidValues), "etag:" + info.etag);
    }
  }

  /** The frame of a key: "ABI:" in front, the tail's suffix at the end. */
  lemma KeyShape(abi: string, opt: string, tail: string, s: string)
    requires IsSuffix(s, tail)
    ensures var k := "ABI:" + (abi + (";" + ("opt:" + (opt + (";" + tail)))));
            |k| >= 4 + |s| && k[..4] == "ABI:" && k[|k| - |s|..] == s
  {
    var l1 := ";" + tail;
    assert IsSuffix(s, l1) by { SuffixKept(";", tail, s); }
    var l2 := opt + l1;
    assert IsSuffix(s, l2) by { SuffixKept(opt, l1, s); }
    var l3 := "opt:" + l2;
    assert IsSuffix(s, l3) by { SuffixKept("opt:", l2, s); }
    var l4 := ";" + l3;
    assert IsSuffix(s, l4) by { SuffixKept(";", l3, s); }
    var l5 := abi + l4;
    assert IsSuffix(s, l5) by { SuffixKept(abi, l4, s); }
    assert IsSuffix(s, "ABI:" + l5) by { SuffixKept("ABI:", l5, s); }
    assert ("ABI:" + l5)[..4] == "ABI:";
  }

  predicate IsSuffix(s: string, t: string)
  {
    |t| >= |s| && t[|t| - |s|..] == s
  }

  /** A suffix of `t` stays a suffix once something is put in front. */
  lemma SuffixKept(p: string, t: string, s: string)
    requires IsSuffix(s, t)
    ensures IsSuffix(s, p + t)
  {
    assert (p + t)[|p + t| - |s|..] == t[|t| - |s|..];
  }

  /** A null last-modified time and one that does not explode into valid
      values give the same key: the zero date. */
  lemma InvalidTimeKeysAsNull(info: PnaclCacheInfo, filteredSpec: Url -> string, hasValidValues: Exploded -> bool)
    requires info.lastModified.Some? && !hasValidValues(info.lastModified.value)
    ensures GetKey(info, filteredSpec, hasValidValues)
            == GetKey(info.(lastModified := None), filteredSpec, hasValidValues)
  {
  }

  /** The index of the first ';' in `s`, or |s| when there is none. */
  function SemicolonIndex(s: string): nat
  {
    if s == [] || s[0] == ';' then 0 else 1 + SemicolonIndex(s[1..])
  }

  lemma {:induction false} SemicolonAfterDigits(x: string, y: string)
    requires forall i :: 0 <= i < |x| ==> IsDigit(x[i])
    ensures SemicolonIndex(x + (";" + y)) == |x|
  {
    if x != [] {
      assert (x + (";" + y))[1..] == x[1..] + (";" + y);
      SemicolonAfterDigits(x[1..], y);
    }
  }

  /** Two strings cut at their first ';' agree on both halves. */
  lemma SplitAtSemicolon(x: string, y: string, x': string, y': string)
    requires x + (";" + y) == x' + (";" + y')
    requires forall i :: 0 <= i < |x| ==> IsDigit(x[i])
    requires forall i :: 0 <= i < |x'| ==> IsDigit(x'[i])
    ensures x == x' && y == y'
  {
    var k := x + (";" + y);
    SemicolonAfterDigits(x, y);
    SemicolonAfterDigits(x', y');
    assert x == k[..|x|] == x';
    assert y == k[|x| + 1..] == y';
  }

  lemma DropPrefix(p: string, r: string)
    ensures (p + r)[|p|..] == r
  {
  }

  /** Where the two version numbers sit in a non-empty key: after "ABI:" and
      after "opt:", each followed by ';'. */
  lemma KeyLayout(info: PnaclCacheInfo, filteredSpec: Url -> string, hasValidValues: Exploded -> bool)
    requires info.pexeUrl.isValid && info.abiVersion >= 0 && info.optLevel >= 0
    ensures GetKey(info, filteredSpec, hasValidValues)[4..]
            == NatToString(info.abiVersion) + (";" + ("opt:" + (NatToString(info.optLevel) + (";" + KeyTail(info, filteredSpec, hasValidValues)))))
  {
    DropPrefix("ABI:", NatToString(info.abiVersion) + (";" + ("opt:" + (NatToString(info.optLevel) + (";" + KeyTail(info, filteredSpec, hasValidValues))))));
  }

  /** A non-empty key determines the ABI version and the optimisation level. */
  lemma GetKeyDeterminesVersions(a: PnaclCacheInfo, b: PnaclCacheInfo,
                                 filteredSpec: Url -> string, hasValidValues: Exploded -> bool)
    requires GetKey(a, filteredSpec, hasValidValues) == GetKey(b, filteredSpec, hasValidValues) != ""
    ensures a.abiVersion == b.abiVersion && a.optLevel == b.optLevel
  {
    GetKeyEmptyIff(a, filteredSpec, hasValidValues);
    GetKeyEmptyIff(b, filteredSpec, hasValidValues);
    KeyLayout(a, filteredSpec, hasValidValues);
    KeyLayout(b, filteredSpec, hasValidValues);
    var da, db := NatToString(a.abiVersion), NatToString(b.abiVersion);
    var oa, ob := NatToString(a.optLevel), NatToString(b.optLevel);
    var ra := "opt:" + (oa + (";" + KeyTail(a, filteredSpec, hasValidValues)));
    var rb := "opt:" + (ob + (";" + KeyTail(b, filteredSpec, hasValidValues)));
    SplitAtSemicolon(da, ra, db, rb);
    DropPrefix("opt:", oa + (";" + KeyTail(a, filteredSpec, hasValidValues)));
    DropPrefix("opt:", ob + (";" + KeyTail(b, filteredSpec, hasValidValues)));
    SplitAtSemicolon(oa, KeyTail(a, filteredSpec, hasValidValues), ob, KeyTail(b, filteredSpec, hasValidValues));
    ParseNatToString(a.abiVersion);
    ParseNatToString(b.abiVersion);
    ParseNatToString(a.optLevel);
    ParseNatToString(b.optLevel);
  }
}
