/** The cache service of the library manager: downloads with retries into
    cache files, and two read policies that choose between a cache file and
    the web. The environment is state: a file system that maps paths to
    contents and last-write times, a millisecond clock, the number of calls
    made to the web transport so far, and the operation log. */
module Cache {
  import opened Wrappers

  /** `DefaultCacheExpiresAfterMinutes` */
  const DefaultExpiryMinutes: int := 10

  /** The pause after a swallowed download failure, in milliseconds. */
  const RetryDelay: int := 200

  /** The attempts the per-item cache refresh allows one download. */
  const RefreshAttempts: int := 5

  const MillisecondsPerMinute: int := 60000

  datatype FileEntry = FileEntry(contents: string, lastWrite: int)

  /** What one call of the web transport (`GetStreamAsync` followed by the
      write of the stream to the destination file) ends with: a body, a
      `ResourceDownloadException`, or any other exception. */
  datatype Transfer = Delivered(body: string) | DownloadFailed | Faulted

  /** The exceptions that leave the service: `ArgumentException`,
      `ResourceDownloadException`, the `OperationCanceledException` of a
      cancelled token, and any other exception of the transport. */
  datatype CacheError = ArgumentError | DownloadFailure | Cancelled | OtherFailure

  /** `CacheFileMetadata(source, destinationPath)` */
  datatype CacheFileMetadata = CacheFileMetadata(source: string, destinationPath: string)

  /** How a run of download attempts ends: the body written to the file, or
      the exception it throws. */
  datatype Outcome = Wrote(body: string) | Raised(error: CacheError)

  /** The transport calls a run of attempts makes and how it ends. */
  datatype Attempts = Attempts(calls: nat, outcome: Outcome)

  /** The state of the cancellation token at the pause after transport call
      number `c`: true when `Task.Delay` finds it cancelled. */
  type Token = nat -> bool

  /** A token that is never cancelled. */
  function Uncancelled(c: nat): bool {
    false
  }

  /** The run of `DownloadToFileAsync`'s loop from attempt `i` on, where the
      transport call of attempt `k` is call number `base + k`: a delivery ends
      the run, any other exception propagates, a download failure is rethrown
      on the last attempt and swallowed on the others, and the pause after a
      swallowed failure throws when the token is cancelled by then. */
  function Run(transport: (string, nat) -> Transfer, url: string, base: nat, i: nat, attempts: nat, cancelledAt: Token): (r: Attempts)
    requires i < attempts
    decreases attempts - i
    ensures 1 <= r.calls <= attempts - i
  {
    match transport(url, base + i)
    case Delivered(body) => Attempts(1, Wrote(body))
    case Faulted => Attempts(1, Raised(OtherFailure))
    case DownloadFailed =>
      if i == attempts - 1 then Attempts(1, Raised(DownloadFailure))
      else if cancelledAt(base + i) then Attempts(1, Raised(Cancelled))
      else
        var rest := Run(transport, url, base, i + 1, attempts, cancelledAt);
        Attempts(1 + rest.calls, rest.outcome)
  }

  /** How a run ends: every call but the last failed to download and was
      swallowed, its pause finding the token not cancelled; the last call
      decides the outcome. A delivery is written, any other exception
      propagates, and a download failure is rethrown on the last attempt, or
      otherwise ends the run at its pause, which found the token cancelled.
      So the run stops at the first pause whose token is cancelled. */
  lemma {:induction false} RunEnds(transport: (string, nat) -> Transfer, url: string, base: nat, i: nat, attempts: nat, cancelledAt: Token)
    requires i < attempts
    decreases attempts - i
    ensures var r := Run(transport, url, base, i, attempts, cancelledAt);
      && (forall c :: base + i <= c < base + i + r.calls - 1 ==> transport(url, c).DownloadFailed? && !cancelledAt(c))
      && (r.outcome.Wrote? <==> transport(url, base + i + r.calls - 1).Delivered?)
      && (r.outcome.Wrote? ==> r.outcome.body == transport(url, base + i + r.calls - 1).body)
      && (r.outcome == Raised(OtherFailure) <==> transport(url, base + i + r.calls - 1).Faulted?)
      && (r.outcome == Raised(DownloadFailure) <==>
           transport(url, base + i + r.calls - 1).DownloadFailed? && i + r.calls == attempts)
      && (r.outcome == Raised(Cancelled) <==>
           transport(url, base + i + r.calls - 1).DownloadFailed? && i + r.calls < attempts)
      && (r.outcome == Raised(Cancelled) ==> cancelledAt(base + i + r.calls - 1))
      && r.outcome != Raised(ArgumentError)
  {
    if transport(url, base + i).DownloadFailed? && i < attempts - 1 && !cancelledAt(base + i) {
      RunEnds(transport, url, base, i + 1, attempts, cancelledAt);
    }
  }

  /** A run succeeds exactly when some call delivers before the attempts run
      out, every earlier call failing to download with its pause finding the
      token not cancelled. */
  lemma RunSucceedsIff(transport: (string, nat) -> Transfer, url: string, base: nat, i: nat, attempts: nat, cancelledAt: Token)
    requires i < attempts
    ensures Run(transport, url, base, i, attempts, cancelledAt).outcome.Wrote? <==>
      exists c :: base + i <= c < base + attempts && transport(url, c).Delivered?
        && forall d :: base + i <= d < c ==> transport(url, d).DownloadFailed? && !cancelledAt(d)
  {
    RunEnds(transport, url, base, i, attempts, cancelledAt);
    var r := Run(transport, url, base, i, attempts, cancelledAt);
    var last := base + i + r.calls - 1;
    if r.outcome.Wrote? {
      assert transport(url, last).Delivered?;
    } else {
      forall c | base + i <= c < base + attempts && transport(url, c).Delivered?
        ensures exists d :: base + i <= d < c && !(transport(url, d).DownloadFailed? && !cancelledAt(d))
      {
        if last < c {
          assert base + i <= last < c;
          if transport(url, last).DownloadFailed? {
            assert r.outcome == Raised(Cancelled) || r.outcome == Raised(DownloadFailure);
          }
        }
      }
    }
  }

  /** A swallowed failure, whose pause finds the token not cancelled, hands
      the run on to the next attempt. */
  lemma RunSkipsFailure(transport: (string, nat) -> Transfer, url: string, base: nat, i: nat, attempts: nat, cancelledAt: Token)
    requires i < attempts - 1 && transport(url, base + i).DownloadFailed? && !cancelledAt(base + i)
    ensures Run(transport, url, base, i, attempts, cancelledAt) ==
      Attempts(1 + Run(transport, url, base, i + 1, attempts, cancelledAt).calls, Run(transport, url, base, i + 1, attempts, cancelledAt).outcome)
  {
  }

  /** A single attempt never pauses, so the token does not affect it. */
  lemma SingleAttemptIgnoresToken(transport: (string, nat) -> Transfer, url: string, base: nat, token1: Token, token2: Token)
    ensures Run(transport, url, base, 0, 1, token1) == Run(transport, url, base, 0, 1, token2)
  {
  }

  /** `GetResourceAsync`'s freshness test: the file is missing, or it was last
      written more than `expirationMinutes` before `now`. */
  predicate Stale(files: map<string, FileEntry>, localFile: string, expirationMinutes: int, now: int) {
    localFile !in files || files[localFile].lastWrite < now - expirationMinutes * MillisecondsPerMinute
  }

  /** What a read of the cache service returns, and the file system and
      transport-call count it leaves behind. */
  datatype ReadOutcome = ReadOutcome(result: Result<string, CacheError>, files: map<string, FileEntry>, calls: nat)

  /** `GetResourceAsync` from file system `files` at time `now`, after `base`
      transport calls: a cancelled token throws at once; a stale file gets one
      download attempt; then the file is read. */
  function Resource(transport: (string, nat) -> Transfer, files: map<string, FileEntry>, now: int, base: nat,
                    url: string, localFile: string, expirationMinutes: int, cancelled: bool): (o: ReadOutcome)
    ensures cancelled ==> o == ReadOutcome(Err(Cancelled), files, base)
    ensures !cancelled ==> o.calls == base + (if Stale(files, localFile, expirationMinutes, now) then 1 else 0)
    ensures !cancelled && !Stale(files, localFile, expirationMinutes, now) ==>
      o == ReadOutcome(Ok(files[localFile].contents), files, base)
    ensures o.result.Ok? ==> localFile in o.files && o.result.value == o.files[localFile].contents
    ensures o.files == files || (transport(url, base).Delivered? &&
      o.files == files[localFile := FileEntry(transport(url, base).body, now)])
    ensures o.result.Err? ==> o.files == files
  {
    if cancelled then ReadOutcome(Err(Cancelled), files, base)
    else if Stale(files, localFile, expirationMinutes, now) then
      var run := Run(transport, url, base, 0, 1, Uncancelled);
      match run.outcome
      case Wrote(body) => ReadOutcome(Ok(body), files[localFile := FileEntry(body, now)], base + run.calls)
      case Raised(e) => ReadOutcome(Err(e), files, base + run.calls)
    else ReadOutcome(Ok(files[localFile].contents), files, base)
  }

  /** The one download attempt of a stale read fails exactly as its transport
      call does: a download failure, or any other exception. */
  lemma StaleReadFails(transport: (string, nat) -> Transfer, files: map<string, FileEntry>, now: int, base: nat,
                       url: string, localFile: string, expirationMinutes: int)
    requires Stale(files, localFile, expirationMinutes, now)
    ensures Resource(transport, files, now, base, url, localFile, expirationMinutes, false).result ==
      match transport(url, base)
      case Delivered(body) => Ok(body)
      case DownloadFailed => Err(DownloadFailure)
      case Faulted => Err(OtherFailure)
  {
  }

  /** `GetContentsFromUriWithCacheFallbackAsync`: a fresh read with the
      default expiry; a download failure falls back to the cache file when
      there is one. */
  function UriWithCacheFallback(transport: (string, nat) -> Transfer, files: map<string, FileEntry>, now: int, base: nat,
                                url: string, cacheFile: string, cancelled: bool): (o: ReadOutcome)
    ensures o.result == Err(DownloadFailure) ==> cacheFile !in files
    ensures o.files == Resource(transport, files, now, base, url, cacheFile, DefaultExpiryMinutes, cancelled).files
    ensures o.calls == Resource(transport, files, now, base, url, cacheFile, DefaultExpiryMinutes, cancelled).calls
    ensures o.result.Ok? ==> cacheFile in o.files && o.result.value == o.files[cacheFile].contents
    ensures var read := Resource(transport, files, now, base, url, cacheFile, DefaultExpiryMinutes, cancelled);
      o.result == if read.result == Err(DownloadFailure) && cacheFile in files then Ok(files[cacheFile].contents) else read.result
  {
    var o := Resource(transport, files, now, base, url, cacheFile, DefaultExpiryMinutes, cancelled);
    if o.result == Err(DownloadFailure) && cacheFile in o.files then
      ReadOutcome(Ok(o.files[cacheFile].contents), o.files, o.calls)
    else o
  }

  /** With a cache file present, the fallback read never fails for want of
      the network: it returns the downloaded body or the cached contents, and
      fails only on a cancelled token or another exception. */
  lemma CacheFallbackServesCachedFile(transport: (string, nat) -> Transfer, files: map<string, FileEntry>, now: int, base: nat,
                                      url: string, cacheFile: string)
    requires cacheFile in files
    ensures var o := UriWithCacheFallback(transport, files, now, base, url, cacheFile, false);
      && (o.result.Ok? || o.result == Err(OtherFailure))
      && (transport(url, base).DownloadFailed? ==> o.result == Ok(files[cacheFile].contents))
  {
  }

  /** Without a cache file there is nothing to fall back to: a failed download
      propagates as `ResourceDownloadException`, and a delivered body is
      written to the cache file and returned. */
  lemma NoCacheFileNoFallback(transport: (string, nat) -> Transfer, files: map<string, FileEntry>, now: int, base: nat,
                              url: string, cacheFile: string)
    requires cacheFile !in files
    ensures var o := UriWithCacheFallback(transport, files, now, base, url, cacheFile, false);
      && o.calls == base + 1
      && (o.result == Err(DownloadFailure) <==> transport(url, base).DownloadFailed?)
      && (transport(url, base).Delivered? ==>
           o.result == Ok(transport(url, base).body) && o.files == files[cacheFile := FileEntry(transport(url, base).body, now)])
  {
    StaleReadFails(transport, files, now, base, url, cacheFile, DefaultExpiryMinutes);
  }

  /** `GetContentsFromCachedFileWithWebRequestFallbackAsync`: an existing
      cache file is read whatever its age; otherwise a read with the default
      expiry downloads it. */
  function CachedFileWithWebFallback(transport: (string, nat) -> Transfer, files: map<string, FileEntry>, now: int, base: nat,
                                     cacheFile: string, url: string, cancelled: bool): (o: ReadOutcome)
    ensures cacheFile in files ==> o == ReadOutcome(Ok(files[cacheFile].contents), files, base)
    ensures cacheFile !in files ==> o == Resource(transport, files, now, base, url, cacheFile, DefaultExpiryMinutes, cancelled)
    ensures cacheFile !in files && !cancelled ==> o.calls == base + 1
    ensures o.result.Ok? ==> cacheFile in o.files && o.result.value == o.files[cacheFile].contents
  {
    if cacheFile in files then ReadOutcome(Ok(files[cacheFile].contents), files, base)
    else Resource(transport, files, now, base, url, cacheFile, DefaultExpiryMinutes, cancelled)
  }

  /** What a finished download leaves: a delivered body is written to the
      file, stamped with the current time, and no error is reported;
      otherwise the file system is untouched and the error is reported. */
  predicate Settled(outcome: Outcome, err: Option<CacheError>, before: map<string, FileEntry>,
                    after: map<string, FileEntry>, fileName: string, now: int)
  {
    match outcome
    case Wrote(body) => err == None && after == before[fileName := FileEntry(body, now)]
    case Raised(e) => err == Some(e) && after == before
  }

  class CustomCacheService {
    /** `IWebRequestHandler.GetStreamAsync`, with the file write: the outcome
        of the `n`-th transport call, for a url. */
    const transport: (string, nat) -> Transfer
    var files: map<string, FileEntry>
    /** `DateTime.Now`, in milliseconds; only the retry pauses advance it. */
    var now: int
    /** The transport calls made so far. */
    var calls: nat
    /** The sources the cache refresh logged as being downloaded. */
    var log: seq<string>

    constructor (transport: (string, nat) -> Transfer, files: map<string, FileEntry>, now: int)
      ensures this.transport == transport && this.files == files && this.now == now
      ensures calls == 0 && log == []
    {
      this.transport := transport;
      this.files := files;
      this.now := now;
      calls := 0;
      log := [];
    }

    /** `DownloadToFileAsync`: `None` when the file was written. */
    method DownloadToFile(url: string, fileName: string, attempts: int, cancelledAt: Token) returns (err: Option<CacheError>)
      modifies this
      ensures log == old(log)
      ensures attempts < 1 ==>
        err == Some(ArgumentError) && calls == old(calls) && now == old(now) && files == old(files)
      ensures attempts >= 1 ==>
        var run := Run(transport, url, old(calls), 0, attempts, cancelledAt);
        && calls == old(calls) + run.calls
        && now == old(now) + RetryDelay * (run.calls - 1)
        && Settled(run.outcome, err, old(files), files, fileName, now)
    {
      if attempts < 1 {
        return Some(ArgumentError);
      }
      ghost var run := Run(transport, url, calls, 0, attempts, cancelledAt);
      var base, clock := calls, now;
      var i := 0;
      while i < attempts
        invariant 0 <= i < attempts
        invariant calls == base && now == clock && files == old(files) && log == old(log)
        invariant run.calls == i + Run(transport, url, base, i, attempts, cancelledAt).calls
        invariant run.outcome == Run(transport, url, base, i, attempts, cancelledAt).outcome
        decreases attempts - i
      {
        var outcome := transport(url, base + i);
        if outcome.Delivered? {
          assert Run(transport, url, base, i, attempts, cancelledAt) == Attempts(1, Wrote(outcome.body));
          calls, now := base + i + 1, clock + RetryDelay * i;
          files := files[fileName := FileEntry(outcome.body, now)];
          return None;
        }
        if outcome.Faulted? {
          assert Run(transport, url, base, i, attempts, cancelledAt) == Attempts(1, Raised(OtherFailure));
          calls, now := base + i + 1, clock + RetryDelay * i;
          return Some(OtherFailure);
        }
        // A ResourceDownloadException: rethrown on the last attempt.
        if i == attempts - 1 {
          assert Run(transport, url, base, i, attempts, cancelledAt) == Attempts(1, Raised(DownloadFailure));
          calls, now := base + i + 1, clock + RetryDelay * i;
          return Some(DownloadFailure);
        }
        // Task.Delay(200, token) throws on a cancelled token.
        if cancelledAt(base + i) {
          assert Run(transport, url, base, i, attempts, cancelledAt) == Attempts(1, Raised(Cancelled));
          calls, now := base + i + 1, clock + RetryDelay * i;
          return Some(Cancelled);
        }
        RunSkipsFailure(transport, url, base, i, attempts, cancelledAt);
        i := i + 1;
      }
    }

    /** `GetResourceAsync` */
    method GetResource(url: string, localFile: string, expirationMinutes: int, cancelled: bool) returns (r: Result<string, CacheError>)
      modifies this
      ensures var o := Resource(transport, old(files), old(now), old(calls), url, localFile, expirationMinutes, cancelled);
        r == o.result && files == o.files && calls == o.calls
      ensures now == old(now) && log == old(log)
    {
      if cancelled {
        return Err(Cancelled);
      }
      if localFile !in files || files[localFile].lastWrite < now - expirationMinutes * MillisecondsPerMinute {
        // One attempt never reaches a pause, so the token is not read again.
        var err := DownloadToFile(url, localFile, 1, Uncancelled);
        if err.Some? {
          return Err(err.value);
        }
      }
      r := Ok(files[localFile].contents);
    }

    /** `DownloadFileIfNecessaryAsync`, the per-item step of the cache
        refresh: a missing destination is logged and downloaded with five
        attempts; an existing one is left alone. */
    method DownloadFileIfNecessary(metadata: CacheFileMetadata, cancelledAt: Token) returns (err: Option<CacheError>)
      modifies this
      ensures metadata.destinationPath in old(files) ==>
        err == None && files == old(files) && calls == old(calls) && now == old(now) && log == old(log)
      ensures metadata.destinationPath !in old(files) ==>
        var run := Run(transport, metadata.source, old(calls), 0, RefreshAttempts, cancelledAt);
        && log == old(log) + [metadata.source]
        && calls == old(calls) + run.calls
        && now == old(now) + RetryDelay * (run.calls - 1)
        && Settled(run.outcome, err, old(files), files, metadata.destinationPath, now)
    {
      err := None;
      if metadata.destinationPath !in files {
        log := log + [metadata.source];
        err := DownloadToFile(metadata.source, metadata.destinationPath, RefreshAttempts, cancelledAt);
      }
    }

    /** `GetContentsFromUriWithCacheFallbackAsync` */
    method GetContentsFromUriWithCacheFallback(url: string, cacheFile: string, cancelled: bool) returns (r: Result<string, CacheError>)
      modifies this
      ensures var o := UriWithCacheFallback(transport, old(files), old(now), old(calls), url, cacheFile, cancelled);
        r == o.result && files == o.files && calls == o.calls
      ensures now == old(now) && log == old(log)
    {
      r := GetResource(url, cacheFile, DefaultExpiryMinutes, cancelled);
      if r == Err(DownloadFailure) {
        if cacheFile in files {
          r := Ok(files[cacheFile].contents);
        }
      }
    }

    /** `GetContentsFromCachedFileWithWebRequestFallbackAsync` */
    method GetContentsFromCachedFileWithWebRequestFallback(cacheFile: string, url: string, cancelled: bool) returns (r: Result<string, CacheError>)
      modifies this
      ensures var o := CachedFileWithWebFallback(transport, old(files), old(now), old(calls), cacheFile, url, cancelled);
        r == o.result && files == o.files && calls == o.calls
      ensures now == old(now) && log == old(log)
    {
      if cacheFile in files {
        r := Ok(files[cacheFile].contents);
      } else {
        r := GetResource(url, cacheFile, DefaultExpiryMinutes, cancelled);
      }
    }
  }
}
