/** The history of a room and the part of it that a byte limit retains. */
module Backlog {

  datatype Option<+T> = None | Some(value: T)

  newtype byte = b: int | 0 <= b < 256

  /** The contents of a non-nil byte slice. */
  type Msg = seq<byte>

  /** queueEntry.Size: the fixed overhead of an entry plus the length of its message. */
  function SizeOf(overhead: int, m: Msg): int {
    overhead + |m|
  }

  /** The bytes that the entries for messages h occupy. */
  function Total(overhead: int, h: seq<Msg>): int {
    if h == [] then 0 else SizeOf(overhead, h[0]) + Total(overhead, h[1..])
  }

  lemma {:induction false} TotalConcat(overhead: int, g: seq<Msg>, h: seq<Msg>)
    ensures Total(overhead, g + h) == Total(overhead, g) + Total(overhead, h)
  {
    if g == [] {
      assert g + h == h;
    } else {
      TotalConcat(overhead, g[1..], h);
      assert (g + h)[1..] == g[1..] + h;
    }
  }

  lemma TotalSnoc(overhead: int, h: seq<Msg>, m: Msg)
    ensures Total(overhead, h + [m]) == Total(overhead, h) + SizeOf(overhead, m)
  {
    TotalConcat(overhead, h, [m]);
    assert Total(overhead, [m]) == SizeOf(overhead, m) + Total(overhead, []);
  }

  lemma TotalDropFirst(overhead: int, h: seq<Msg>, b: nat)
    requires b < |h|
    ensures Total(overhead, h[b..]) == SizeOf(overhead, h[b]) + Total(overhead, h[b + 1..])
  {
    assert h[b..][1..] == h[b + 1..];
  }

  lemma {:induction false} TotalPositive(overhead: int, h: seq<Msg>)
    requires overhead > 0
    ensures Total(overhead, h) >= 0
    ensures Total(overhead, h) == 0 <==> h == []
  {
    if h != [] {
      TotalPositive(overhead, h[1..]);
    }
  }

  lemma {:induction false} TotalAtLeast(overhead: int, h: seq<Msg>)
    ensures overhead * |h| <= Total(overhead, h)
  {
    if h != [] {
      TotalAtLeast(overhead, h[1..]);
      assert overhead * |h| == overhead + overhead * (|h| - 1);
    }
  }

  lemma {:induction false} TotalAtMost(overhead: int, h: seq<Msg>, limit: int)
    requires forall k: nat :: k < |h| ==> SizeOf(overhead, h[k]) <= limit
    ensures Total(overhead, h) <= limit * |h|
  {
    if h != [] {
      TotalAtMost(overhead, h[1..], limit);
      assert limit * |h| == limit + limit * (|h| - 1);
    }
  }

  /** The bytes of the messages from c on. */
  function SuffixSize(overhead: int, h: seq<Msg>, c: nat): int
    requires c <= |h|
  {
    Total(overhead, h[c..])
  }

  /** The suffix of h from b on fits in `limit` bytes, and so does no longer one. */
  ghost predicate LongestSuffix(overhead: int, limit: int, h: seq<Msg>, b: nat) {
    && b <= |h|
    && SuffixSize(overhead, h, b) <= limit
    && forall c: nat :: c <= |h| && SuffixSize(overhead, h, c) <= limit ==> b <= c
  }

  /** Trimming one entry at a time while the rest is over the limit. */
  function TrimFrom(overhead: int, limit: int, h: seq<Msg>, b: nat): (r: nat)
    requires b <= |h|
    ensures b <= r <= |h|
    decreases |h| - b
  {
    if b < |h| && SuffixSize(overhead, h, b) > limit then TrimFrom(overhead, limit, h, b + 1) else b
  }

  lemma {:induction false} TrimFromStops(overhead: int, limit: int, h: seq<Msg>, b: nat)
    requires overhead > 0 && limit >= 0 && b <= |h|
    requires forall c: nat :: c < b ==> SuffixSize(overhead, h, c) > limit
    ensures LongestSuffix(overhead, limit, h, TrimFrom(overhead, limit, h, b))
    decreases |h| - b
  {
    if b < |h| && SuffixSize(overhead, h, b) > limit {
      TrimFromStops(overhead, limit, h, b + 1);
    }
  }

  /** Appending keeps every suffix that was too long too long. */
  lemma OversizeStaysOversize(overhead: int, limit: int, h: seq<Msg>, b: nat, m: Msg)
    requires overhead > 0 && LongestSuffix(overhead, limit, h, b)
    ensures forall c: nat :: c < b ==> SuffixSize(overhead, h + [m], c) > limit
  {
    forall c: nat | c < b ensures SuffixSize(overhead, h + [m], c) > limit {
      assert SuffixSize(overhead, h, c) > limit;
      assert (h + [m])[c..] == h[c..] + [m];
      TotalSnoc(overhead, h[c..], m);
    }
  }

  /** Trimming after one more append restores the longest suffix that fits. */
  lemma TrimAfterAppend(overhead: int, limit: int, h: seq<Msg>, b: nat, m: Msg)
    requires overhead > 0 && limit >= 0 && LongestSuffix(overhead, limit, h, b)
    ensures LongestSuffix(overhead, limit, h + [m], TrimFrom(overhead, limit, h + [m], b))
  {
    OversizeStaysOversize(overhead, limit, h, b, m);
    TrimFromStops(overhead, limit, h + [m], b);
  }

  /** The base after appending the messages of h one by one, trimming after each. */
  function BaseAfter(overhead: int, limit: int, h: seq<Msg>): (b: nat)
    ensures b <= |h|
  {
    if h == [] then 0
    else TrimFrom(overhead, limit, h, BaseAfter(overhead, limit, h[..|h| - 1]))
  }

  /** Trimming after every append retains the longest suffix of the whole history that fits. */
  lemma {:induction false} IncrementalTrimIsLongestSuffix(overhead: int, limit: int, h: seq<Msg>)
    requires overhead > 0 && limit >= 0
    ensures LongestSuffix(overhead, limit, h, BaseAfter(overhead, limit, h))
  {
    if h != [] {
      var g := h[..|h| - 1];
      IncrementalTrimIsLongestSuffix(overhead, limit, g);
      assert g + [h[|h| - 1]] == h;
      TrimAfterAppend(overhead, limit, g, BaseAfter(overhead, limit, g), h[|h| - 1]);
    }
  }

  /** So it gives what a single trim of the full history would. */
  lemma IncrementalEqualsBatch(overhead: int, limit: int, h: seq<Msg>)
    requires overhead > 0 && limit >= 0
    ensures BaseAfter(overhead, limit, h) == TrimFrom(overhead, limit, h, 0)
  {
    IncrementalTrimIsLongestSuffix(overhead, limit, h);
    TrimFromStops(overhead, limit, h, 0);
    LongestSuffixUnique(overhead, limit, h, BaseAfter(overhead, limit, h), TrimFrom(overhead, limit, h, 0));
  }

  lemma LongestSuffixUnique(overhead: int, limit: int, h: seq<Msg>, a: nat, b: nat)
    requires LongestSuffix(overhead, limit, h, a) && LongestSuffix(overhead, limit, h, b)
    ensures a == b
  {
    assert SuffixSize(overhead, h, a) <= limit && SuffixSize(overhead, h, b) <= limit;
  }

  lemma {:induction false} TotalEqualSizes(overhead: int, size: int, h: seq<Msg>)
    requires forall m <- h :: SizeOf(overhead, m) == size
    ensures Total(overhead, h) == |h| * size
  {
    if h != [] {
      TotalEqualSizes(overhead, size, h[1..]);
      assert |h| * size == size + (|h| - 1) * size;
    }
  }

  /** n messages of one size leave the last min(n, limit / size) of them, and their bytes. */
  lemma EqualSizesRetained(overhead: int, limit: int, size: int, h: seq<Msg>)
    requires overhead > 0 && limit >= 0
    requires size > 0 && forall m <- h :: SizeOf(overhead, m) == size
    ensures var kept := if |h| < limit / size then |h| else limit / size;
            && BaseAfter(overhead, limit, h) == |h| - kept
            && Total(overhead, h[BaseAfter(overhead, limit, h)..]) == kept * size
  {
    var kept := if |h| < limit / size then |h| else limit / size;
    EqualSizesSuffix(overhead, limit, size, h, kept);
    TotalEqualSizes(overhead, size, h[|h| - kept..]);
    IncrementalTrimIsLongestSuffix(overhead, limit, h);
    LongestSuffixUnique(overhead, limit, h, |h| - kept, BaseAfter(overhead, limit, h));
  }

  lemma EqualSizesSuffix(overhead: int, limit: int, size: int, h: seq<Msg>, kept: nat)
    requires size > 0 && limit >= 0 && forall m <- h :: SizeOf(overhead, m) == size
    requires kept == if |h| < limit / size then |h| else limit / size
    ensures LongestSuffix(overhead, limit, h, |h| - kept)
  {
    forall c: nat | c <= |h| ensures SuffixSize(overhead, h, c) <= limit <==> |h| - c <= limit / size {
      TotalEqualSizes(overhead, size, h[c..]);
      Quotient(limit, size, |h| - c);
    }
  }

  lemma Quotient(limit: int, size: int, k: int)
    requires size > 0 && limit >= 0 && k >= 0
    ensures k * size <= limit <==> k <= limit / size
  {
    var q := limit / size;
    if k <= q {
      assert k * size <= q * size;
    } else {
      assert k * size >= (q + 1) * size;
    }
  }
}
