/**
 * The reply splitter of the free-text handler `echo`: a model reply longer
 * than Telegram's message limit is cut at the fixed offsets 0, 4096, 8192, …
 * with plain slicing (no word boundaries, no trimming); a reply that fits is
 * passed to one `reply_text` call as it is, even when it is empty.
 */
module Chunker {
  import opened Wrappers
  import opened Text

  /** `max_length` in `echo`. */
  const MaxLength: nat := 4096

  /** Fixed text sent when the model call or a send raises. */
  const Apology := "Произошла ошибка при обработке вашего запроса. Попробуйте снова."

  function Min(a: int, b: int): int
  {
    if a <= b then a else b
  }

  /** Number of pieces of width `n` needed to cover `len` characters: ceil(len / n). */
  function CeilDiv(len: nat, n: nat): nat
    requires n > 0
  {
    (len + n - 1) / n
  }

  /** Consecutive slices `s[i:i+n]` for `i` in `range(0, len(s), n)`. */
  function Chunks(s: string, n: nat): seq<string>
    requires n > 0
    decreases |s|
  {
    if |s| == 0 then []
    else if |s| <= n then [s]
    else [s[..n]] + Chunks(s[n..], n)
  }

  /**
   * The characterisation of a hard cut at width `n`, independent of how the
   * pieces are produced: they spell `s` in order, every piece but the last
   * is exactly `n` long, and the last is non-empty and at most `n` long.
   */
  predicate IsHardCut(parts: seq<string>, s: string, n: nat)
  {
    && Concat(parts) == s
    && (forall k :: 0 <= k < |parts| - 1 ==> |parts[k]| == n)
    && (|parts| > 0 ==> 0 < |parts[|parts| - 1]| <= n)
  }

  lemma {:induction false} ChunksIsHardCut(s: string, n: nat)
    requires n > 0
    ensures IsHardCut(Chunks(s, n), s, n)
    decreases |s|
  {
    if |s| == 0 || |s| <= n {
    } else {
      ChunksIsHardCut(s[n..], n);
      var rest := Chunks(s[n..], n);
      assert Chunks(s, n) == [s[..n]] + rest;
      assert ([s[..n]] + rest)[1..] == rest;
      assert s[..n] + s[n..] == s;
    }
  }

  /** A hard cut is unique: any pieces with the hard-cut shape are the slices. */
  lemma {:induction false} HardCutIsChunks(parts: seq<string>, s: string, n: nat)
    requires n > 0
    requires IsHardCut(parts, s, n)
    ensures parts == Chunks(s, n)
    decreases |parts|
  {
    if |parts| == 0 {
    } else if |parts| == 1 {
      assert parts[1..] == [];
      assert Concat(parts) == parts[0] + Concat(parts[1..]);
      assert s == parts[0];
    } else {
      var tail := parts[1..];
      assert |parts[0]| == n;
      assert s == parts[0] + Concat(tail);
      assert |Concat(tail)| > 0 by {
        assert tail[|tail| - 1] == parts[|parts| - 1];
        ConcatAppend(tail[..|tail| - 1], [tail[|tail| - 1]]);
        assert tail[..|tail| - 1] + [tail[|tail| - 1]] == tail;
        assert Concat([tail[|tail| - 1]]) == tail[|tail| - 1] + Concat([]);
      }
      assert s[..n] == parts[0];
      assert s[n..] == Concat(tail);
      assert IsHardCut(tail, s[n..], n) by {
        forall k | 0 <= k < |tail| - 1
          ensures |tail[k]| == n
        {
          assert tail[k] == parts[k + 1];
        }
      }
      HardCutIsChunks(tail, s[n..], n);
    }
  }

  /** The slices are exactly the pieces of hard-cut shape. */
  lemma ChunksCharacterised(parts: seq<string>, s: string, n: nat)
    requires n > 0
    ensures IsHardCut(parts, s, n) <==> parts == Chunks(s, n)
  {
    ChunksIsHardCut(s, n);
    if IsHardCut(parts, s, n) {
      HardCutIsChunks(parts, s, n);
    }
  }

  /** Division pinned down by its quotient's bracket. */
  lemma DivBracket(a: int, n: int, q: int)
    requires n > 0
    requires q * n <= a < q * n + n
    ensures a / n == q
  {
    var d := a / n;
    assert a == d * n + a % n;
    assert d * n + n == (d + 1) * n;
    assert q * n + n == (q + 1) * n;
    MulCancel(q, d + 1, n);
    MulCancel(d, q + 1, n);
  }

  lemma MulMono(x: int, y: int, n: int)
    requires x <= y && n >= 0
    ensures x * n <= y * n
  {
    assert y * n - x * n == (y - x) * n;
  }

  lemma MulCancel(x: int, y: int, n: int)
    requires n > 0
    ensures x * n < y * n ==> x < y
  {
    if y <= x {
      MulMono(y, x, n);
    }
  }

  /** The pieces cover `s` with less than one piece to spare. */
  lemma {:induction false} ChunksBracket(s: string, n: nat)
    requires n > 0
    ensures |s| == 0 ==> |Chunks(s, n)| == 0
    ensures |s| > 0 ==> (|Chunks(s, n)| - 1) * n < |s| <= |Chunks(s, n)| * n
    decreases |s|
  {
    if |s| > n {
      ChunksBracket(s[n..], n);
      var c := |Chunks(s[n..], n)|;
      assert |Chunks(s, n)| == c + 1;
      assert (c + 1 - 1) * n == (c - 1) * n + n;
      assert (c + 1) * n == c * n + n;
    }
  }

  lemma ChunksCount(s: string, n: nat)
    requires n > 0
    ensures |Chunks(s, n)| == CeilDiv(|s|, n)
  {
    ChunksBracket(s, n);
    var c := |Chunks(s, n)|;
    if |s| == 0 {
      DivBracket(n - 1, n, 0);
    } else {
      assert c * n == (c - 1) * n + n;
      DivBracket(|s| + n - 1, n, c);
    }
  }

  /**
   * What `echo` sends for a model reply `text` when every send succeeds:
   * the slices when the reply is longer than `n`, otherwise the reply itself.
   */
  function Split(text: string, n: nat): (parts: seq<string>)
    requires n > 0
    ensures Concat(parts) == text
    ensures forall k :: 0 <= k < |parts| ==> |parts[k]| <= n
    ensures |text| <= n ==> parts == [text]
    ensures |text| > n ==> |parts| == CeilDiv(|text|, n)
    ensures |text| > n ==> forall k :: 0 <= k < |parts| - 1 ==> |parts[k]| == n
  {
    ChunksIsHardCut(text, n);
    ChunksCount(text, n);
    if |text| > n then Chunks(text, n) else [text]
  }

  /** The splitting loop of `echo`, as written: slice from `i`, step `n`. */
  method SplitReply(text: string) returns (parts: seq<string>)
    ensures parts == Split(text, MaxLength)
    ensures Concat(parts) == text
    ensures forall k :: 0 <= k < |parts| ==> |parts[k]| <= MaxLength
  {
    var n := MaxLength;
    if |text| > n {
      parts := [];
      var i := 0;
      while i < |text|
        invariant 0 <= i
        invariant i < |text| + n
        invariant parts + Chunks(text[Min(i, |text|)..], n) == Chunks(text, n)
        decreases |text| - i
      {
        var part := text[i..Min(i + n, |text|)];
        assert Chunks(text[i..], n) == [part] + Chunks(text[Min(i + n, |text|)..], n) by {
          if |text[i..]| > n {
            assert text[i..][..n] == part;
            assert text[i..][n..] == text[i + n..];
          } else {
            assert part == text[i..];
            assert text[Min(i + n, |text|)..] == [];
          }
        }
        parts := parts + [part];
        i := i + n;
      }
    } else {
      parts := [text];
    }
  }

  /** Outcome of `chat_session.send_message`: the reply text, or an exception. */
  datatype ModelReply = Replied(text: string) | Raised

  /**
   * The messages `echo` delivers. `failAt` is the index of the first
   * `reply_text` call of the reply that raises, if any: the messages before
   * it are delivered, none after it is attempted, and the apology follows.
   * The typing indicator and the apology's own send are taken to succeed.
   */
  function Echo(reply: ModelReply, failAt: Option<nat>): (sent: seq<string>)
    ensures reply.Raised? ==> sent == [Apology]
    ensures forall k :: 0 <= k < |sent| ==> |sent[k]| <= MaxLength
    ensures reply.Replied? && failAt.None? ==> Concat(sent) == reply.text
    ensures reply.Replied? && failAt.None? ==>
              |sent| == if |reply.text| <= MaxLength then 1 else CeilDiv(|reply.text|, MaxLength)
  {
    match reply
    case Raised => [Apology]
    case Replied(text) =>
      var parts := Split(text, MaxLength);
      if failAt.Some? && failAt.value < |parts| then parts[..failAt.value] + [Apology]
      else parts
  }

  /**
   * A failing send at chunk `k` leaves a prefix of the reply delivered,
   * stops the remaining chunks and adds exactly one apology.
   */
  lemma {:induction false} EchoStopsAtFailure(text: string, k: nat)
    requires k < |Split(text, MaxLength)|
    ensures var sent := Echo(Replied(text), Some(k));
      && |sent| == k + 1
      && sent[k] == Apology
      && sent[..k] == Split(text, MaxLength)[..k]
      && Concat(sent[..k]) <= text
  {
    var parts := Split(text, MaxLength);
    var sent := Echo(Replied(text), Some(k));
    assert sent[..k] == parts[..k];
    ConcatAppend(parts[..k], parts[k..]);
    assert parts[..k] + parts[k..] == parts;
  }
}
