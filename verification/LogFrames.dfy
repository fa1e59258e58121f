/**
 `_frame_chunks` of src/build_engine/executor/stream.py: a greedy splitter of text into
 pieces of at most 65,536 bytes of UTF-8 (section 3 of RFC 3629).
 */
module LogFrames {
  import opened Utf8

  const MAX_LOG_DATA_BYTES: nat := 65_536

  // len(s.encode("utf-8"))
  function Utf8Length(s: string): nat {
    |Encoded(s)|
  }

  function Concat(pieces: seq<string>): string {
    if pieces == [] then "" else pieces[0] + Concat(pieces[1..])
  }

  predicate Fits(s: string) {
    Utf8Length(s) <= MAX_LOG_DATA_BYTES
  }

  // ---------- lengths ----------

  lemma {:induction false} Utf8Append(s: string, t: string)
    ensures Utf8Length(s + t) == Utf8Length(s) + Utf8Length(t)
  {
    if s == "" {
      assert s + t == t;
    } else {
      Utf8Append(s[1..], t);
      assert (s + t)[1..] == s[1..] + t;
    }
  }

  lemma {:induction false} Utf8Bounds(s: string)
    ensures |s| <= Utf8Length(s) <= 4 * |s|
  {
    if s != "" { Utf8Bounds(s[1..]); }
  }

  // ---------- the splitter ----------

  // No longer prefix of the rest fits.
  ghost predicate LongestPrefix(rest: string, n: nat) {
    && 1 <= n <= |rest| && Fits(rest[..n])
    && forall m | n < m <= |rest| :: !Fits(rest[..m])
  }

  // Each chunk takes as much of the rest as fits.
  ghost predicate Greedy(value: string, chunks: seq<string>)
    decreases |chunks|
  {
    if chunks == [] then value == ""
    else
      && LongestPrefix(value, |chunks[0]|) && chunks[0] == value[..|chunks[0]|]
      && Greedy(value[|chunks[0]|..], chunks[1..])
  }

  // Consecutive pieces of the text, each within the limit.
  ghost predicate Splits(value: string, pieces: seq<string>) {
    Concat(pieces) == value && forall p | p in pieces :: |Encoded(p)| <= 65_536
  }

  method FrameChunks(value: string) returns (chunks: seq<string>)
    ensures Fits(value) ==> chunks == [value]
    ensures !Fits(value) ==> Greedy(value, chunks)
    ensures Concat(chunks) == value && forall c | c in chunks :: |Encoded(c)| <= 65_536
    ensures |Encoded(value)| <= 65_536 ==> chunks == [value]
    ensures |Encoded(value)| > 65_536 ==> forall c | c in chunks :: c != ""
    ensures |Encoded(value)| > 65_536 ==> forall pieces | Splits(value, pieces) :: |chunks| <= |pieces|
  {
    if Utf8Length(value) <= MAX_LOG_DATA_BYTES {
      assert Concat([value]) == value + Concat([]);
      return [value];
    }
    chunks := [];
    var remaining := value;
    ghost var taken := 0;
    assert forall tail: seq<string> :: [] + tail == tail;
    while remaining != ""
      invariant 0 <= taken <= |value| && remaining == value[taken..]
      invariant forall tail :: Greedy(remaining, tail) ==> Greedy(value, chunks + tail)
      decreases |remaining|
    {
      var limit := if |remaining| < MAX_LOG_DATA_BYTES then |remaining| else MAX_LOG_DATA_BYTES;
      var chunk := remaining[..limit];
      LimitCovers(remaining);
      while Utf8Length(chunk) > MAX_LOG_DATA_BYTES
        invariant 1 <= limit <= |remaining| && chunk == remaining[..limit]
        invariant forall m | limit < m <= |remaining| :: !Fits(remaining[..m])
        decreases limit
      {
        OneCharFits(remaining);
        limit := limit - 1;
        chunk := remaining[..limit];
      }
      ghost var before, rest := chunks, remaining;
      chunks := chunks + [chunk];
      remaining := remaining[limit..];
      taken := taken + limit;
      forall tail | Greedy(remaining, tail)
        ensures Greedy(value, chunks + tail)
      {
        GreedyChunk(value, before, rest, limit, tail);
      }
    }
    assert Greedy("", []);
    assert chunks + [] == chunks;
    GreedyFrames(value, chunks);
  }

  lemma GreedyFrames(value: string, chunks: seq<string>)
    requires Greedy(value, chunks)
    ensures Concat(chunks) == value && forall c | c in chunks :: c != "" && Fits(c)
    ensures forall pieces | Splits(value, pieces) :: |chunks| <= |pieces|
  {
    GreedySplits(value, chunks);
    forall pieces | Splits(value, pieces)
      ensures |chunks| <= |pieces|
    {
      GreedyIsOptimal(value, chunks, pieces);
    }
  }

  // One more chunk in front of any greedy split of what it leaves.
  lemma GreedyChunk(value: string, before: seq<string>, rest: string, limit: nat, tail: seq<string>)
    requires forall more :: Greedy(rest, more) ==> Greedy(value, before + more)
    requires LongestPrefix(rest, limit) && Greedy(rest[limit..], tail)
    ensures Greedy(value, before + [rest[..limit]] + tail)
  {
    var more := [rest[..limit]] + tail;
    assert more[1..] == tail;
    assert Greedy(rest, more);
    assert before + more == before + [rest[..limit]] + tail;
  }

  // No more characters than bytes can fit, so the first guess is not too short.
  lemma LimitCovers(s: string)
    ensures forall m | MAX_LOG_DATA_BYTES < m <= |s| :: !Fits(s[..m])
  {
    forall m | MAX_LOG_DATA_BYTES < m <= |s|
      ensures !Fits(s[..m])
    {
      Utf8Bounds(s[..m]);
    }
  }

  lemma OneCharFits(s: string)
    requires s != ""
    ensures Fits(s[..1])
  {
    Utf8Bounds(s[..1]);
  }

  // ---------- what greedy chunks are ----------

  /** The chunks put together are the text; each is non-empty and fits. */
  lemma {:induction false} GreedySplits(value: string, chunks: seq<string>)
    requires Greedy(value, chunks)
    ensures Concat(chunks) == value
    ensures forall c | c in chunks :: c != "" && Fits(c)
  {
    if chunks != [] {
      GreedySplits(value[|chunks[0]|..], chunks[1..]);
      assert chunks == [chunks[0]] + chunks[1..];
      assert value == chunks[0] + value[|chunks[0]|..];
    }
  }

  /** There is only one greedy split. */
  lemma {:induction false} GreedyUnique(value: string, chunks: seq<string>, others: seq<string>)
    requires Greedy(value, chunks) && Greedy(value, others)
    ensures chunks == others
  {
    if chunks != [] && others != [] {
      assert |chunks[0]| == |others[0]|;
      GreedyUnique(value[|chunks[0]|..], chunks[1..], others[1..]);
    }
  }

  lemma SuffixFits(value: string, n: nat, k: nat)
    requires k <= n <= |value| && Fits(value[..n])
    ensures Fits(value[k..][..n - k])
  {
    assert value[..n] == value[..k] + value[k..n];
    Utf8Append(value[..k], value[k..n]);
    assert value[k..][..n - k] == value[k..n];
  }

  lemma SameTail(value: string, n: nat, k: nat, m: nat)
    requires n <= |value| && n <= k + m <= |value|
    ensures value[n..][k + m - n..] == value[k..][m..]
  {
  }

  // A suffix needs no more greedy chunks than the whole text.
  lemma {:induction false} SuffixNeedsNoMore(value: string, chunks: seq<string>, k: nat, others: seq<string>)
    requires Greedy(value, chunks) && k <= |value| && Greedy(value[k..], others)
    ensures |others| <= |chunks|
    decreases |chunks|
  {
    if others == [] || chunks == [] {
    } else {
      var n, suffix := |chunks[0]|, value[k..];
      var m := |others[0]|;
      if k >= n {
        SameTail(value, n, k, 0);
        assert suffix[0..] == suffix;
        SuffixNeedsNoMore(value[n..], chunks[1..], k - n, others);
      } else {
        // The first chunk of the suffix reaches at least as far as the first chunk of the text.
        SuffixFits(value, n, k);
        SameTail(value, n, k, m);
        SuffixNeedsNoMore(value[n..], chunks[1..], k + m - n, others[1..]);
      }
    }
  }

  /** Optimality: no split of the text into pieces that fit uses fewer pieces. */
  lemma {:induction false} GreedyIsOptimal(value: string, chunks: seq<string>, pieces: seq<string>)
    requires Greedy(value, chunks)
    requires Concat(pieces) == value && forall p | p in pieces :: Fits(p)
    ensures |chunks| <= |pieces|
    decreases |pieces|
  {
    if pieces == [] || chunks == [] {
    } else {
      var p, n := |pieces[0]|, |chunks[0]|;
      assert value[..p] == pieces[0] && value[p..] == Concat(pieces[1..]);
      var tail := GreedyExists(value[p..]);
      GreedyIsOptimal(value[p..], tail, pieces[1..]);
      if p == 0 {
        assert value[0..] == value;
        GreedyUnique(value, chunks, tail);
      } else {
        // value[n..] is a suffix of value[p..]
        assert value[p..][n - p..] == value[n..];
        SuffixNeedsNoMore(value[p..], tail, n - p, chunks[1..]);
      }
    }
  }

  lemma {:induction false} GreedyExists(value: string) returns (chunks: seq<string>)
    ensures Greedy(value, chunks)
    decreases |value|
  {
    if value == "" {
      chunks := [];
    } else {
      var n := |value|;
      while !Fits(value[..n])
        invariant 1 <= n <= |value|
        invariant forall m | n < m <= |value| :: !Fits(value[..m])
        decreases n
      {
        OneCharFits(value);
        n := n - 1;
      }
      var tail := GreedyExists(value[n..]);
      chunks := [value[..n]] + tail;
      assert chunks[1..] == tail;
    }
  }
}
