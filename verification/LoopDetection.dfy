// Detecting a repeating pattern at the end of a sliding window of tool calls.
module LoopDetection {
  import opened Wrappers

  datatype ToolSignature = ToolSignature(name: string, argumentsHash: nat)

  type History = seq<ToolSignature>

  datatype LoopPattern = LoopPattern(pattern: History, repetitions: nat)

  // From `start` on, the history has period p.
  ghost predicate PeriodicFrom(h: History, p: nat, start: nat) {
    forall i :: start <= i < |h| - p ==> h[i] == h[i + p]
  }

  // The last k * p signatures consist of k equal blocks of length p.
  ghost predicate Repeats(h: History, p: nat, k: nat) {
    k * p <= |h| && PeriodicFrom(h, p, |h| - k * p)
  }

  // r is the number of trailing copies of the last block of length p.
  ghost predicate MaxRepeats(h: History, p: nat, r: nat) {
    p >= 1 && r >= 1 && Repeats(h, p, r) && !Repeats(h, p, r + 1)
  }

  ghost predicate LoopFree(h: History, m: nat) {
    forall p: nat :: p >= 1 ==> !Repeats(h, p, m)
  }

  // The promise of the detector: none exactly when no block repeats often enough; otherwise the
  // shortest such block, with all its trailing copies.
  ghost predicate Detects(h: History, m: nat, r: Option<LoopPattern>) {
    match r
    case None => LoopFree(h, m)
    case Some(l) =>
      var p := |l.pattern|;
      1 <= p <= |h| && l.pattern == h[|h| - p..]
      && Repeats(h, p, m) && (forall q: nat :: 1 <= q < p ==> !Repeats(h, q, m))
      && MaxRepeats(h, p, l.repetitions) && l.repetitions >= m
  }

  // The last w signatures.
  function Suffix(s: History, w: nat): History {
    if |s| <= w then s else s[|s| - w..]
  }

  // ----- Arithmetic -----

  lemma MulMonotone(a: nat, b: nat, p: nat)
    requires a <= b
    ensures a * p <= b * p
  {
  }

  lemma MulStep(a: nat, p: nat)
    ensures (a + 1) * p == a * p + p
  {
  }

  lemma ModUnique(x: nat, q: nat, d: int, r: nat)
    requires q >= 1 && r < q && x == q * d + r
    ensures x % q == r
  {
    var e := x / q - d;
    assert q * e == q * (x / q) - q * d == r - x % q;
    MulSign(q, e);
  }

  lemma MulSign(q: nat, e: int)
    ensures e >= 1 ==> q * e >= q
    ensures e <= -1 ==> q * e + q <= 0
  {
  }

  lemma ModAddOnce(a: nat, q: nat)
    requires q >= 1
    ensures (a + q) % q == a % q
  {
    assert q * (a / q + 1) == q * (a / q) + q;
    ModUnique(a + q, q, a / q + 1, a % q);
  }

  lemma {:induction false} ModAddMultiple(a: nat, q: nat, k: nat)
    requires q >= 1
    ensures (a + k * q) % q == a % q
  {
    if k > 0 {
      MulStep(k - 1, q);
      ModAddMultiple(a, q, k - 1);
      ModAddOnce(a + (k - 1) * q, q);
    }
  }

  lemma ModMod(x: nat, p: nat, q: nat)
    requires p >= 1 && q >= 1 && p % q == 0
    ensures (x % p) % q == x % q
  {
    var c, d := p / q, x / p;
    assert p == c * q;
    assert x == x % p + d * p;
    assert d * p == (d * c) * q;
    ModAddMultiple(x % p, q, d * c);
  }

  // ----- Repetition -----

  lemma RepeatsMonotone(h: History, p: nat, j: nat, k: nat)
    requires Repeats(h, p, k) && j <= k
    ensures Repeats(h, p, j)
  {
    MulMonotone(j, k, p);
  }

  lemma RepeatsUpTo(h: History, p: nat, r: nat, k: nat)
    requires MaxRepeats(h, p, r)
    ensures Repeats(h, p, k) <==> k <= r
  {
    if k <= r {
      RepeatsMonotone(h, p, k, r);
    } else if Repeats(h, p, k) {
      RepeatsMonotone(h, p, r + 1, k);
    }
  }

  lemma RepeatsBound(h: History, p: nat, k: nat)
    requires p >= 1
    ensures k * p <= |h| <==> k <= |h| / p
  {
    if k <= |h| / p { MulMonotone(k, |h| / p, p); }
    if k > |h| / p { MulMonotone(|h| / p + 1, k, p); MulStep(|h| / p, p); }
  }

  // Extending a run of copies by one more block to the left.
  lemma OneMoreBlock(h: History, p: nat, pos: nat)
    requires 1 <= p <= pos && pos + p <= |h| && PeriodicFrom(h, p, pos)
    requires h[pos..pos + p] == h[|h| - p..]
    ensures PeriodicFrom(h, p, pos - p) <==> h[pos - p..pos] == h[|h| - p..]
  {
    var left, block := h[pos - p..pos], h[pos..pos + p];
    if left == block {
      forall i | pos - p <= i < |h| - p ensures h[i] == h[i + p] {
        if i < pos { assert left[i - (pos - p)] == block[i - (pos - p)]; }
      }
    }
    if PeriodicFrom(h, p, pos - p) {
      forall j | 0 <= j < p ensures left[j] == block[j] {
        assert h[pos - p + j] == h[pos - p + j + p];
      }
    }
  }

  function Copies(w: History, k: nat): History {
    if k == 0 then [] else w + Copies(w, k - 1)
  }

  // To repeat is to end with that many copies of the last block.
  lemma {:induction false} RepeatsAreCopies(h: History, p: nat, k: nat)
    requires 1 <= p <= |h| && k >= 1
    ensures Repeats(h, p, k) <==> k * p <= |h| && h[|h| - k * p..] == Copies(h[|h| - p..], k)
    decreases k
  {
    hide PeriodicFrom, Copies;
    if k == 1 {
      OneCopy(h, p);
    } else if k * p <= |h| {
      MulStep(k - 1, p);
      MulMonotone(1, k - 1, p);
      RepeatsAreCopies(h, p, k - 1);
      OneBlockBack(h, p, |h| - (k - 1) * p, k - 1);
    }
  }

  lemma OneCopy(h: History, p: nat)
    requires p <= |h|
    ensures PeriodicFrom(h, p, |h| - p) && Copies(h[|h| - p..], 1) == h[|h| - p..]
  {
    assert Copies(h[|h| - p..], 1) == h[|h| - p..] + Copies(h[|h| - p..], 0);
  }

  lemma OneBlockBack(h: History, p: nat, pos: nat, k: nat)
    requires 1 <= p <= pos && pos + p <= |h| && k >= 1
    requires PeriodicFrom(h, p, pos) <==> h[pos..] == Copies(h[|h| - p..], k)
    ensures PeriodicFrom(h, p, pos - p) <==> h[pos - p..] == Copies(h[|h| - p..], k + 1)
  {
    CopiesBefore(h, p, pos, k);
    if PeriodicFrom(h, p, pos) { OneMoreBlock(h, p, pos); }
  }

  // One copy more is one block more in front of the others.
  lemma CopiesBefore(h: History, p: nat, pos: nat, k: nat)
    requires 1 <= p <= pos && pos + p <= |h| && k >= 1
    ensures var w := h[|h| - p..];
            (h[pos - p..] == Copies(w, k + 1) <==> h[pos - p..pos] == w && h[pos..] == Copies(w, k))
            && (h[pos..] == Copies(w, k) ==> h[pos..pos + p] == w)
  {
    var w := h[|h| - p..];
    assert h[pos - p..] == h[pos - p..pos] + h[pos..];
    assert Copies(w, k + 1) == w + Copies(w, k) && Copies(w, k) == w + Copies(w, k - 1);
    SameParts(h[pos - p..pos], h[pos..], w, Copies(w, k));
    assert h[pos..] == h[pos..pos + p] + h[pos + p..];
    SameParts(h[pos..pos + p], h[pos + p..], w, Copies(w, k - 1));
  }

  lemma SameParts(a: History, b: History, c: History, d: History)
    requires |a| == |c|
    ensures a + b == c + d <==> a == c && b == d
  {
    assert (a + b)[..|a|] == a && (a + b)[|a|..] == b;
    assert (c + d)[..|c|] == c && (c + d)[|c|..] == d;
  }

  method CountTrailingRepetitions(history: History, patternLen: nat) returns (count: nat)
    ensures patternLen == 0 || |history| < patternLen ==> count == 0
    ensures 1 <= patternLen <= |history| ==> MaxRepeats(history, patternLen, count)
  {
    if patternLen == 0 || |history| < patternLen { return 0; }
    var pattern := history[|history| - patternLen..];
    count := 1;
    var pos := |history| - patternLen;
    while pos >= patternLen
      invariant count >= 1 && pos + count * patternLen == |history|
      invariant Repeats(history, patternLen, count)
      invariant pos + patternLen <= |history| && history[pos..pos + patternLen] == pattern
    {
      MulStep(count, patternLen);
      OneMoreBlock(history, patternLen, pos);
      var next := pos - patternLen;
      if history[next..next + patternLen] != pattern { return; }
      pos, count := next, count + 1;
    }
    MulStep(count, patternLen);
  }

  class LoopDetector {
    var history: History
    const windowSize: nat
    const minRepetitions: nat
    const hash: string -> nat
    // Everything recorded since the last reset.
    ghost var stream: History

    ghost predicate Valid()
      reads this
    {
      history == Suffix(stream, windowSize)
    }

    constructor (windowSize: nat, minRepetitions: nat, hash: string -> nat)
      ensures Valid() && stream == [] && history == []
      ensures this.windowSize == windowSize && this.minRepetitions == minRepetitions && this.hash == hash
    {
      this.windowSize, this.minRepetitions, this.hash := windowSize, minRepetitions, hash;
      history, stream := [], [];
    }

    method Record(name: string, arguments: string)
      requires Valid()
      modifies this
      ensures Valid() && stream == old(stream) + [ToolSignature(name, hash(arguments))]
      ensures history == Suffix(old(history) + [ToolSignature(name, hash(arguments))], windowSize)
    {
      var signature := ToolSignature(name, hash(arguments));
      history := history + [signature];
      if |history| > windowSize {
        var excess := |history| - windowSize;
        history := history[excess..];
      }
      stream := stream + [signature];
      SuffixSnoc(old(stream), signature, windowSize);
    }

    // The source divides by `min_repetitions` as soon as the history is not empty.
    method DetectLoop() returns (r: Option<LoopPattern>)
      requires history != [] ==> minRepetitions >= 1
      ensures minRepetitions >= 1 ==> Detects(history, minRepetitions, r)
      ensures history == [] ==> r == None
    {
      if history == [] {
        if minRepetitions >= 1 { EmptyIsLoopFree(minRepetitions); }
        return None;
      }
      var maxPatternLen := |history| / minRepetitions;
      for patternLen := 1 to maxPatternLen + 1
        invariant forall q: nat :: 1 <= q < patternLen ==> !Repeats(history, q, minRepetitions)
      {
        PatternFits(patternLen, |history|, minRepetitions);
        var reps := CountTrailingRepetitions(history, patternLen);
        RepeatsUpTo(history, patternLen, reps, minRepetitions);
        if reps >= minRepetitions {
          return Some(LoopPattern(history[|history| - patternLen..], reps));
        }
      }
      forall p: nat | p > maxPatternLen ensures !Repeats(history, p, minRepetitions) {
        MulMonotone(maxPatternLen + 1, p, minRepetitions);
        assert p * minRepetitions > |history|;
        assert minRepetitions * p == p * minRepetitions;
      }
      return None;
    }

    method Reset()
      modifies this
      ensures Valid() && stream == [] && history == []
    {
      history, stream := [], [];
    }
  }

  lemma EmptyIsLoopFree(m: nat)
    requires m >= 1
    ensures LoopFree([], m)
  {
    forall p: nat | p >= 1 ensures !Repeats([], p, m) {
      MulMonotone(1, m, p);
    }
  }

  lemma PatternFits(p: nat, n: nat, m: nat)
    requires m >= 1 && 1 <= p <= n / m
    ensures p <= n
  {
  }

  lemma SuffixSnoc(s: History, x: ToolSignature, w: nat)
    ensures Suffix(s + [x], w) == Suffix(Suffix(s, w) + [x], w)
  {
  }

  // ----- The window agrees with the unbounded stream -----

  lemma WindowRepeats(s: History, w: nat, p: nat, k: nat)
    ensures Repeats(Suffix(s, w), p, k) <==> Repeats(s, p, k) && k * p <= w
  {
    if k * p <= |Suffix(s, w)| { PeriodicInSuffix(s, Suffix(s, w), p, |Suffix(s, w)| - k * p); }
  }

  lemma PeriodicInSuffix(s: History, h: History, p: nat, start: int)
    requires |h| <= |s| && h == s[|s| - |h|..] && start >= 0
    ensures PeriodicFrom(h, p, start) <==> PeriodicFrom(s, p, start + |s| - |h|)
  {
    var d := |s| - |h|;
    assert forall i :: 0 <= i < |h| ==> h[i] == s[i + d];
    if PeriodicFrom(h, p, start) {
      forall i | start + d <= i < |s| - p ensures s[i] == s[i + p] {
        assert h[i - d] == h[i - d + p];
      }
    }
  }

  // The windowed detector finds a block of length p exactly when the whole stream since the last
  // reset repeats it often enough within the window, and it counts the copies that fit.
  lemma WindowAgreesWithStream(s: History, w: nat, m: nat, p: nat, full: nat)
    requires m >= 1 && MaxRepeats(s, p, full) && p <= |Suffix(s, w)|
    ensures Repeats(Suffix(s, w), p, m) <==> m <= full && m * p <= w
    ensures forall r :: MaxRepeats(Suffix(s, w), p, r) <==>
              r == if full <= |Suffix(s, w)| / p then full else |Suffix(s, w)| / p
  {
    var h := Suffix(s, w);
    WindowRepeats(s, w, p, m);
    RepeatsUpTo(s, p, full, m);
    var least := if full <= |h| / p then full else |h| / p;
    forall k: nat ensures Repeats(h, p, k) <==> k <= least {
      WindowRepeats(s, w, p, k);
      RepeatsUpTo(s, p, full, k);
      RepeatsBound(h, p, k);
    }
  }

  // ----- The reported block is primitive -----

  // w is a power of its prefix of length q.
  ghost predicate IsPower(w: History, q: nat) {
    q >= 1 && |w| % q == 0 && forall i :: 0 <= i < |w| - q ==> w[i] == w[i + q]
  }

  lemma {:induction false} PowerAt(w: History, q: nat, i: nat)
    requires IsPower(w, q) && i < |w|
    ensures i % q < |w| && w[i] == w[i % q]
  {
    if i >= q {
      PowerAt(w, q, i - q);
      assert w[i - q] == w[i - q + q];
      ModAddOnce(i - q, q);
    } else {
      ModUnique(i, q, 0, i);
    }
  }

  lemma {:induction false} CopyAt(h: History, p: nat, start: nat, x: nat)
    requires 1 <= p <= |h| - start && (|h| - start) % p == 0 && PeriodicFrom(h, p, start)
    requires x < |h| - start
    ensures h[start + x] == h[|h| - p..][x % p]
    decreases |h| - x
  {
    var rest := |h| - start - p;
    if x < rest {
      assert h[start + x] == h[start + x + p];
      CopyAt(h, p, start, x + p);
      ModAddOnce(x, p);
    } else {
      ModAddOnce(rest, p);
      ModUnique(x, p, rest / p, x - rest);
    }
  }

  // A power repeats its root at least as often.
  lemma PowerRepeats(h: History, p: nat, m: nat, q: nat)
    requires m >= 1 && 1 <= p <= |h| && Repeats(h, p, m) && IsPower(h[|h| - p..], q) && q <= p
    ensures Repeats(h, q, m)
  {
    var w := h[|h| - p..];
    MulMonotone(q, p, m);
    assert m * q <= m * p;
    ModAddMultiple(0, p, m);
    MulMonotone(1, m, p);
    forall i | |h| - m * q <= i < |h| - q ensures h[i] == h[i + q] {
      var x := i - (|h| - m * p);
      CopyAt(h, p, |h| - m * p, x);
      CopyAt(h, p, |h| - m * p, x + q);
      PowerAt(w, q, x % p);
      PowerAt(w, q, (x + q) % p);
      ModMod(x, p, q);
      ModMod(x + q, p, q);
      ModAddMultiple(x, q, 1);
    }
  }

  // The reported block is never a proper power of a shorter one.
  lemma ReportedBlockIsPrimitive(h: History, m: nat, l: LoopPattern, q: nat)
    requires m >= 1 && Detects(h, m, Some(l)) && q < |l.pattern|
    ensures !IsPower(l.pattern, q)
  {
    if IsPower(l.pattern, q) {
      PowerRepeats(h, |l.pattern|, m, q);
    }
  }

  // The report is determined by the history.
  lemma DetectionUnique(h: History, m: nat, a: Option<LoopPattern>, b: Option<LoopPattern>)
    requires m >= 1 && Detects(h, m, a) && Detects(h, m, b)
    ensures a == b
  {
    if a.Some? && b.Some? {
      RepeatsUpTo(h, |a.value.pattern|, a.value.repetitions, b.value.repetitions);
      RepeatsUpTo(h, |b.value.pattern|, b.value.repetitions, a.value.repetitions);
    }
  }

  // ----- One call at a time -----

  lemma RepeatsOneCallEarlier(h: History, x: ToolSignature, w: nat, p: nat, m: nat)
    requires p >= 1 && Repeats(Suffix(h + [x], w), p, m + 1)
    ensures Repeats(h, p, m)
  {
    var g := h + [x];
    WindowRepeats(g, w, p, m + 1);
    MulStep(m, p);
    forall i | |h| - m * p <= i < |h| - p ensures h[i] == h[i + p] {
      assert g[i] == g[i + p];
    }
  }

  // A loop that is checked for after every call is caught at exactly the minimum number of
  // repetitions, also across trimming of the window.
  lemma CaughtAtTheMinimum(h: History, x: ToolSignature, w: nat, m: nat, l: LoopPattern)
    requires m >= 1 && LoopFree(h, m) && Detects(Suffix(h + [x], w), m, Some(l))
    ensures l.repetitions == m
  {
    if l.repetitions > m {
      RepeatsUpTo(Suffix(h + [x], w), |l.pattern|, l.repetitions, m + 1);
      RepeatsOneCallEarlier(h, x, w, |l.pattern|, m);
    }
  }
}
