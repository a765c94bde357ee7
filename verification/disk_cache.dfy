/**
 * The disk side of a load: the names of the cache files (`AbstractBucket.getFilename`), the
 * normalised cache directory, and the two-tier decision of `LoaderRunnable.execute` over the
 * set of files that exist. Fetching, scaling and decoding are collaborators whose outcomes
 * are parameters.
 */
module DiskCache {
  import opened Wrappers

  /** The width and height that ask for the unscaled file. */
  const NO_SIZE: int := -1

  // ---------------------------------------------------------------------------------------
  // `%d`: the decimal form of an int.

  predicate IsDigit(c: char)
  {
    '0' <= c <= '9'
  }

  predicate AllDigits(s: string)
  {
    forall i | 0 <= i < |s| :: IsDigit(s[i])
  }

  function DigitChar(d: nat): (c: char)
    requires d < 10
    ensures IsDigit(c) && c as int - '0' as int == d
  {
    ('0' as int + d) as char
  }

  /** The decimal digits of `n`, most significant first, without leading zeros. */
  function NatToDecimal(n: nat): (r: string)
    ensures r != [] && AllDigits(r)
    ensures |r| > 1 ==> r[0] != '0'
    decreases n
  {
    if n < 10 then [DigitChar(n)] else NatToDecimal(n / 10) + [DigitChar(n % 10)]
  }

  /** The value a string of decimal digits denotes. */
  function DigitsValue(s: string): nat
    requires AllDigits(s)
    decreases |s|
  {
    if s == [] then 0 else DigitsValue(s[..|s| - 1]) * 10 + (s[|s| - 1] as int - '0' as int)
  }

  lemma {:induction false} NatToDecimalRoundTrip(n: nat)
    ensures DigitsValue(NatToDecimal(n)) == n
    decreases n
  {
    var r := NatToDecimal(n);
    if n >= 10 {
      NatToDecimalRoundTrip(n / 10);
      assert r[..|r| - 1] == NatToDecimal(n / 10);
    }
  }

  /** `%d`: a minus sign exactly for negative numbers, then the digits of the magnitude. */
  function IntToDecimal(n: int): (r: string)
    ensures r != []
    ensures r[0] == '-' <==> n < 0
    ensures AllDigits(r[1..])
    ensures n >= 0 ==> AllDigits(r)
  {
    if n < 0 then "-" + NatToDecimal(-n) else NatToDecimal(n)
  }

  /** The value a `%d` string denotes. */
  function DecimalValue(s: string): int
    requires s != [] && AllDigits(s[1..]) && (s[0] == '-' || IsDigit(s[0]))
  {
    if s[0] == '-' then -(DigitsValue(s[1..]) as int) else
      assert AllDigits(s);
      DigitsValue(s)
  }

  lemma IntToDecimalRoundTrip(n: int)
    ensures DecimalValue(IntToDecimal(n)) == n
  {
    if n < 0 {
      assert IntToDecimal(n)[1..] == NatToDecimal(-n);
      NatToDecimalRoundTrip(-n);
    } else {
      NatToDecimalRoundTrip(n);
    }
  }

  lemma IntToDecimalInjective(a: int, b: int)
    requires IntToDecimal(a) == IntToDecimal(b)
    ensures a == b
  {
    IntToDecimalRoundTrip(a);
    IntToDecimalRoundTrip(b);
  }

  /**
   * A `%d` number followed by a '-' can be split off unambiguously: a '-' after the first
   * character of the number cannot occur, so the first such '-' is the separator.
   */
  lemma SplitAtDash(a: int, x: string, b: int, y: string)
    requires IntToDecimal(a) + "-" + x == IntToDecimal(b) + "-" + y
    ensures a == b && x == y
  {
    var da, db := IntToDecimal(a), IntToDecimal(b);
    var s := da + "-" + x;
    FirstDash(a, x);
    FirstDash(b, y);
    assert |da| == |db|;
    assert da == s[..|da|] == db;
    IntToDecimalInjective(a, b);
    assert x == s[|da| + 1..] == y;
  }

  /** After a `%d` number, the first '-' past its first character is the one that follows it. */
  lemma FirstDash(a: int, x: string)
    ensures var s := IntToDecimal(a) + "-" + x;
      && s[|IntToDecimal(a)|] == '-'
      && forall i | 1 <= i < |IntToDecimal(a)| :: s[i] != '-'
  {
    var d := IntToDecimal(a);
    forall i | 1 <= i < |d|
      ensures (d + "-" + x)[i] != '-'
    {
      assert d[1..][i - 1] == d[i];
    }
  }

  // ---------------------------------------------------------------------------------------
  // The cache directory and file names.

  predicate EndsWithSlash(p: string)
  {
    |p| > 0 && p[|p| - 1] == '/'
  }

  /** The constructor's normalisation: a cache path always ends with "/". */
  function NormalizeCachePath(p: string): (r: string)
    ensures EndsWithSlash(r)
    ensures EndsWithSlash(p) ==> r == p
    ensures !EndsWithSlash(p) ==> |r| == |p| + 1 && r[..|p|] == p
  {
    if EndsWithSlash(p) then p else p + "/"
  }

  lemma NormalizeIdempotent(p: string)
    ensures NormalizeCachePath(NormalizeCachePath(p)) == NormalizeCachePath(p)
  {
  }

  /** Distinct directory strings that end with "/" are never merged by the normalisation. */
  lemma {:induction false} NormalizeInjectiveOnSlashed(p: string, q: string)
    requires EndsWithSlash(p) && EndsWithSlash(q)
    ensures NormalizeCachePath(p) == NormalizeCachePath(q) <==> p == q
  {
  }

  /** The name part of a cache file, before ".jpg". */
  function Stem(pathHash: int, width: int, height: int): string
  {
    if width == NO_SIZE && height == NO_SIZE then IntToDecimal(pathHash)
    else IntToDecimal(width) + "-" + (IntToDecimal(height) + "-" + IntToDecimal(pathHash))
  }

  /** The cache file of a remote path at a size; `pathHash` stands for `String.hashCode`. */
  function FileName(cachePath: string, remotePath: string, pathHash: string -> int, width: int, height: int): string
  {
    cachePath + Stem(pathHash(remotePath), width, height) + ".jpg"
  }

  datatype FilenameError = InvalidRemotePath

  /** `getFilename`: a null remote path is an error, any other gets its file name. */
  function GetFilename(cachePath: string, remotePath: Option<string>, pathHash: string -> int, width: int, height: int): (r: Result<string, FilenameError>)
    ensures r.Failure? <==> remotePath.None?
    ensures r.Success? ==> |r.value| > |cachePath| + 4 && r.value[..|cachePath|] == cachePath
    ensures r.Success? ==> r.value[|r.value| - 4..] == ".jpg"
  {
    match remotePath
    case None => Failure(InvalidRemotePath)
    case Some(p) => Success(FileName(cachePath, p, pathHash, width, height))
  }

  /** `getFilename(remotePath)`: the unscaled file, the one the download goes to. */
  function RawFileName(cachePath: string, remotePath: string, pathHash: string -> int): string
  {
    FileName(cachePath, remotePath, pathHash, NO_SIZE, NO_SIZE)
  }

  lemma StemInjective(h: int, w: int, ht: int, w': int, ht': int)
    requires Stem(h, w, ht) == Stem(h, w', ht')
    ensures w == w' && ht == ht'
  {
    var raw := w == NO_SIZE && ht == NO_SIZE;
    var raw' := w' == NO_SIZE && ht' == NO_SIZE;
    if raw != raw' {
      assert false;
    } else if !raw {
      SplitAtDash(w, IntToDecimal(ht) + "-" + IntToDecimal(h), w', IntToDecimal(ht') + "-" + IntToDecimal(h));
      SplitAtDash(ht, IntToDecimal(h), ht', IntToDecimal(h));
    }
  }

  /**
   * For one remote path, each size has its own file: the names of two sizes coincide
   * exactly when the sizes do. In particular the unscaled name is the name of (-1, -1) and of
   * no other size.
   */
  lemma FileNameInjective(cachePath: string, remotePath: string, pathHash: string -> int, w: int, h: int, w': int, h': int)
    ensures FileName(cachePath, remotePath, pathHash, w, h) == FileName(cachePath, remotePath, pathHash, w', h')
      <==> w == w' && h == h'
  {
    var x := Stem(pathHash(remotePath), w, h);
    var y := Stem(pathHash(remotePath), w', h');
    var s := cachePath + x + ".jpg";
    var t := cachePath + y + ".jpg";
    if s == t {
      assert |x| == |y|;
      assert x == s[|cachePath|..|s| - 4] == t[|cachePath|..|t| - 4] == y;
      StemInjective(pathHash(remotePath), w, h, w', h');
    }
  }

  /** The unscaled request names the raw file itself as its "scaled" file. */
  lemma UnsizedIsRaw(cachePath: string, remotePath: string, pathHash: string -> int, w: int, h: int)
    ensures FileName(cachePath, remotePath, pathHash, w, h) == RawFileName(cachePath, remotePath, pathHash)
      <==> w == NO_SIZE && h == NO_SIZE
  {
    FileNameInjective(cachePath, remotePath, pathHash, w, h, NO_SIZE, NO_SIZE);
  }

  // ---------------------------------------------------------------------------------------
  // `LoaderRunnable.execute`.

  /** What `saveFromWeb` did: saved the raw file, failed with an I/O error, or failed to rename. */
  datatype FetchOutcome = Saved | NotSaved | RenameFailed

  /**
   * What `scale` did: copied the file, failed before the destination was opened, or failed
   * while copying into an already created destination.
   */
  datatype ScaleOutcome = Scaled | NotOpened | CopyFailed

  /** A call `execute` makes on the bucket's collaborators. */
  datatype Call =
    | LoadFromDisk(file: string)
    | SaveFromWeb(remote: string, local: string)
    | Scale(source: string, width: int, height: int, destination: string)

  /**
   * The calls made, the files that exist afterwards, the file handed to `loadFromDisk` if
   * any, and whether a RuntimeException ("Unable to move file") escaped.
   */
  datatype Execution = Execution(calls: seq<Call>, files: set<string>, decode: Option<string>, threw: bool)

  predicate Fetches(calls: seq<Call>)
  {
    exists i | 0 <= i < |calls| :: calls[i].SaveFromWeb?
  }

  predicate Scales(calls: seq<Call>)
  {
    exists i | 0 <= i < |calls| :: calls[i].Scale?
  }

  /** The download step: tried only when the raw file is missing. */
  function FetchRaw(files: set<string>, remotePath: string, raw: string, fetch: FetchOutcome): (r: (seq<Call>, set<string>, bool))
    ensures raw in files ==> r == ([], files, false)
    ensures raw !in files ==> r.0 == [SaveFromWeb(remotePath, raw)]
    ensures raw !in files ==> (raw in r.1 <==> fetch == Saved) && r.1 - {raw} == files
    ensures r.2 <==> raw !in files && fetch == RenameFailed
  {
    if raw in files then ([], files, false)
    else
      match fetch
      case Saved => ([SaveFromWeb(remotePath, raw)], files + {raw}, false)
      case NotSaved => ([SaveFromWeb(remotePath, raw)], files, false)
      case RenameFailed => ([SaveFromWeb(remotePath, raw)], files, true)
  }

  /** The decision itself, over the existing files and the collaborators' outcomes. */
  function Execute(files: set<string>, cachePath: string, remotePath: string, pathHash: string -> int,
                   width: int, height: int, fetch: FetchOutcome, scale: ScaleOutcome): (e: Execution)
    ensures var scaled := FileName(cachePath, remotePath, pathHash, width, height);
      var raw := RawFileName(cachePath, remotePath, pathHash);
      // The exact size on disk is loaded and nothing else happens.
      && (scaled in files ==> e == Execution([LoadFromDisk(scaled)], files, Some(scaled), false))
      // The download is tried exactly when neither file exists.
      && (Fetches(e.calls) <==> scaled !in files && raw !in files)
      // Scaling runs exactly when the raw file exists after the download step.
      && (Scales(e.calls) <==> scaled !in files && raw in FetchRaw(files, remotePath, raw, fetch).1 && !e.threw)
      // A decode happens only of the scaled file, and only after a successful scale or a hit.
      && (e.decode.Some? <==> scaled in files || (Scales(e.calls) && scale == Scaled))
      && (e.decode.Some? ==> e.decode.value == scaled && scaled in e.files && e.calls[|e.calls| - 1] == LoadFromDisk(scaled))
      && (e.threw <==> scaled !in files && raw !in files && fetch == RenameFailed)
      && (e.threw ==> e.decode.None?)
      && files <= e.files <= files + {raw, scaled}
  {
    var scaled := FileName(cachePath, remotePath, pathHash, width, height);
    var raw := RawFileName(cachePath, remotePath, pathHash);
    if scaled in files then
      Execution([LoadFromDisk(scaled)], files, Some(scaled), false)
    else
      var (fetched, files', threw) := FetchRaw(files, remotePath, raw, fetch);
      assert raw !in files ==> fetched[0].SaveFromWeb?;
      if threw then
        assert !Scales(fetched);
        Execution(fetched, files', None, true)
      else if raw !in files' then
        assert !Scales(fetched);
        Execution(fetched, files', None, false)
      else
        var scaling := fetched + [Scale(raw, width, height, scaled)];
        assert scaling[|scaling| - 1].Scale?;
        assert Fetches(scaling) <==> Fetches(fetched) by {
          if Fetches(scaling) {
            var i :| 0 <= i < |scaling| && scaling[i].SaveFromWeb?;
            assert i < |fetched|;
          }
          if Fetches(fetched) {
            var i :| 0 <= i < |fetched| && fetched[i].SaveFromWeb?;
            assert scaling[i] == fetched[i];
          }
        }
        match scale
        case Scaled =>
          var calls := scaling + [LoadFromDisk(scaled)];
          assert calls[|scaling| - 1].Scale?;
          assert Fetches(calls) <==> Fetches(scaling) by {
            if Fetches(calls) {
              var i :| 0 <= i < |calls| && calls[i].SaveFromWeb?;
              assert i < |scaling| && calls[i] == scaling[i];
            }
            if Fetches(scaling) {
              var i :| 0 <= i < |scaling| && scaling[i].SaveFromWeb?;
              assert calls[i] == scaling[i];
            }
          }
          Execution(calls, files' + {scaled}, Some(scaled), false)
        case NotOpened => Execution(scaling, files', None, false)
        case CopyFailed => Execution(scaling, files' + {scaled}, None, false)
  }

  /** The test's first scenario: nothing on disk and the download fails, so nothing else runs. */
  lemma NothingCachedFetchFails(cachePath: string, remotePath: string, pathHash: string -> int, w: int, h: int, scale: ScaleOutcome)
    ensures var e := Execute({}, cachePath, remotePath, pathHash, w, h, NotSaved, scale);
      e.calls == [SaveFromWeb(remotePath, RawFileName(cachePath, remotePath, pathHash))]
      && e.decode.None? && !e.threw && e.files == {}
  {
  }

  /** A raw file without the scaled one is scaled and then loaded, without a download. */
  lemma RawCachedIsScaled(cachePath: string, remotePath: string, pathHash: string -> int, w: int, h: int, fetch: FetchOutcome)
    requires w != NO_SIZE || h != NO_SIZE
    ensures var raw := RawFileName(cachePath, remotePath, pathHash);
      var scaled := FileName(cachePath, remotePath, pathHash, w, h);
      var e := Execute({raw}, cachePath, remotePath, pathHash, w, h, fetch, Scaled);
      e.calls == [Scale(raw, w, h, scaled), LoadFromDisk(scaled)] && e.decode == Some(scaled)
  {
    UnsizedIsRaw(cachePath, remotePath, pathHash, w, h);
  }

  /**
   * Whatever file a run leaves behind at the exact size is what the next run for the same
   * key loads, without fetching or scaling: a successful load is served from disk afterwards,
   * and so is the partial file a failed copy leaves.
   */
  lemma ScaledFileIsReused(files: set<string>, cachePath: string, remotePath: string, pathHash: string -> int,
                           w: int, h: int, fetch: FetchOutcome, scale: ScaleOutcome, fetch': FetchOutcome, scale': ScaleOutcome)
    ensures var e := Execute(files, cachePath, remotePath, pathHash, w, h, fetch, scale);
      var scaled := FileName(cachePath, remotePath, pathHash, w, h);
      (e.decode.Some? || (Scales(e.calls) && scale == CopyFailed)) ==>
        Execute(e.files, cachePath, remotePath, pathHash, w, h, fetch', scale').calls == [LoadFromDisk(scaled)]
  {
  }

  /**
   * A request for the unscaled size whose file is missing downloads it and then scales the
   * raw file onto itself: source and destination of the scale are the same file.
   */
  lemma UnsizedScalesOntoItself(files: set<string>, cachePath: string, remotePath: string, pathHash: string -> int,
                                fetch: FetchOutcome, scale: ScaleOutcome)
    ensures var e := Execute(files, cachePath, remotePath, pathHash, NO_SIZE, NO_SIZE, fetch, scale);
      forall i | 0 <= i < |e.calls| && e.calls[i].Scale? :: e.calls[i].source == e.calls[i].destination
  {
  }
}
