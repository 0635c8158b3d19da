/**
 * The pure helpers of the typing page: `pad2`, the remaining-words
 * counter, the per-position classes `renderWord` gives a word, and the
 * elapsed time and words-per-minute score `finish` computes.
 */
module TypingDisplay {
  import opened Wrappers
  import opened Text

  /** `n.toString().padStart(2, '0')` */
  function Pad2(n: nat): (s: string)
    ensures |s| == if n < 10 then 2 else |Decimal(n)|
    ensures DecimalValue(s) == n
    ensures forall i :: 0 <= i < |s| ==> '0' <= s[i] <= '9'
    ensures s[0] == '0' <==> n < 10
    ensures n < 100 ==> |s| == 2
  {
    DecimalRoundTrip(n);
    var d := Decimal(n);
    if |d| < 2 then
      LeadingZero(d);
      "0" + d
    else d
  }

  /** The remaining counter `Math.max(totalWords - currentWordIndex, 0)`. */
  function Remaining(totalWords: nat, wordIndex: nat): (r: nat)
    ensures wordIndex <= totalWords ==> r + wordIndex == totalWords
    ensures wordIndex >= totalWords ==> r == 0
  {
    if totalWords - wordIndex > 0 then totalWords - wordIndex else 0
  }

  /** The class `renderWord` gives one character. */
  datatype CharClass = Correct | CurrentWrong | CurrentTodo | Todo

  /** One `<span>` of the rendered word: a character and its class. */
  datatype Span = Span(ch: char, cls: CharClass)

  /** The class of position `i` when `charIndex` characters are typed. */
  function ClassAt(i: nat, charIndex: nat, showWrong: bool): CharClass {
    if i < charIndex then Correct
    else if i == charIndex then (if showWrong then CurrentWrong else CurrentTodo)
    else Todo
  }

  /** The spans `renderWord` builds for `word`. */
  function WordHtml(word: string, charIndex: nat, showWrong: bool): (html: seq<Span>)
    ensures |html| == |word|
    ensures forall i :: 0 <= i < |word| ==> html[i].ch == word[i]
    ensures forall i :: 0 <= i < |word| ==> (html[i].cls == Correct <==> i < charIndex)
    ensures forall i :: 0 <= i < |word| ==>
      (html[i].cls in {CurrentWrong, CurrentTodo} <==> i == charIndex)
    ensures forall i :: 0 <= i < |word| ==> (html[i].cls == CurrentWrong <==> i == charIndex && showWrong)
  {
    seq(|word|, i requires 0 <= i < |word| => Span(word[i], ClassAt(i, charIndex, showWrong)))
  }

  /** The loop of `renderWord`, appending one span per character. */
  method BuildWordHtml(word: string, charIndex: nat, showWrong: bool) returns (html: seq<Span>)
    ensures html == WordHtml(word, charIndex, showWrong)
  {
    html := [];
    for i := 0 to |word|
      invariant |html| == i
      invariant forall j :: 0 <= j < i ==> html[j] == Span(word[j], ClassAt(j, charIndex, showWrong))
    {
      var ch := word[i];
      if i < charIndex {
        html := html + [Span(ch, Correct)];
      } else if i == charIndex {
        html := html + [Span(ch, if showWrong then CurrentWrong else CurrentTodo)];
      } else {
        html := html + [Span(ch, Todo)];
      }
    }
  }

  /** Number of spans of class `cls`. */
  function CountClass(html: seq<Span>, cls: CharClass): nat {
    if html == [] then 0
    else (if html[|html| - 1].cls == cls then 1 else 0) + CountClass(html[..|html| - 1], cls)
  }

  /**
   * Exactly `min(charIndex, |word|)` characters show as correct, and one
   * shows as current while the word is unfinished.
   */
  lemma {:induction false} WordHtmlCounts(word: string, charIndex: nat, showWrong: bool)
    ensures var html := WordHtml(word, charIndex, showWrong);
      && CountClass(html, Correct) == (if charIndex <= |word| then charIndex else |word|)
      && CountClass(html, CurrentWrong) + CountClass(html, CurrentTodo) == (if charIndex < |word| then 1 else 0)
    decreases |word|
  {
    if word != [] {
      var n := |word| - 1;
      WordHtmlCounts(word[..n], charIndex, showWrong);
      assert WordHtml(word, charIndex, showWrong)[..n] == WordHtml(word[..n], charIndex, showWrong);
    }
  }

  /** `Math.max(1, finishedAt - (startedAt ?? finishedAt))` */
  function ElapsedMs(startedAt: Option<int>, finishedAt: int): (ms: nat)
    ensures ms >= 1
    ensures startedAt.None? ==> ms == 1
    ensures startedAt.Some? && finishedAt - startedAt.value >= 1 ==> ms == finishedAt - startedAt.value
    ensures startedAt.Some? && finishedAt - startedAt.value < 1 ==> ms == 1
  {
    var start := if startedAt.Some? then startedAt.value else finishedAt;
    if finishedAt - start > 1 then finishedAt - start else 1
  }

  /**
   * `Math.round((correctChars / 5) / (elapsedMs / 60000))`, in integers:
   * the score is 12000 * correctChars / elapsedMs rounded to the nearest
   * integer, halves rounded up.
   */
  function Wpm(correctChars: nat, elapsedMs: nat): (wpm: nat)
    requires elapsedMs >= 1
    ensures 2 * elapsedMs * wpm <= 24000 * correctChars + elapsedMs
    ensures 24000 * correctChars + elapsedMs < 2 * elapsedMs * (wpm + 1)
  {
    var num := 24000 * correctChars + elapsedMs;
    var den := 2 * elapsedMs;
    var q := num / den;
    assert num == den * q + num % den;
    q
  }

  /** `m * a <= m * b` with a positive `m` gives `a <= b`. */
  lemma CancelFactor(m: nat, a: nat, b: nat)
    requires m >= 1 && m * a <= m * b
    ensures a <= b
  {
    if a > b {
      PositiveProduct(m, a - b);
    }
  }

  lemma PositiveProduct(m: nat, k: nat)
    requires m >= 1 && k >= 1
    ensures m * k >= 1
  {
  }

  /**
   * No correct character, no score; otherwise the score is at most
   * 12000 per correct character (the elapsed time is at least 1 ms).
   */
  lemma WpmBounds(correctChars: nat, elapsedMs: nat)
    requires elapsedMs >= 1
    ensures correctChars == 0 ==> Wpm(correctChars, elapsedMs) == 0
    ensures Wpm(correctChars, elapsedMs) <= 12000 * correctChars
  {
    var w := Wpm(correctChars, elapsedMs);
    var k := 24000 * correctChars + 1;
    assert 24000 * correctChars <= elapsedMs * (24000 * correctChars) by {
      if correctChars > 0 {
        PositiveProduct(elapsedMs, 24000 * correctChars);
      }
    }
    assert elapsedMs * (2 * w) <= elapsedMs * k;
    CancelFactor(elapsedMs, 2 * w, k);
  }

  /** Typing 25 characters in 30 seconds scores 10 words per minute. */
  lemma WpmExample()
    ensures Wpm(25, ElapsedMs(Some(1000), 31000)) == 10
  {
  }
}
