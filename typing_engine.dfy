/**
 * The state machine of the typing page as functions on an immutable
 * snapshot of its variables and of what it shows: the keydown handler,
 * the timer callback that moves to the next word, and `finish`. The
 * page's class in TypingPage is proved against these functions.
 */
module TypingEngine {
  import opened Wrappers
  import opened Text
  import opened WordPool
  import opened TypingDisplay

  /**
   * The page's variables (`currentWordIndex`, `currentCharIndex`,
   * `correctChars`, `startedAt`, `finishedAt`, `waitingNext`), whether the
   * end screen is shown, what the word, meaning and remaining elements
   * show, the final score, and the words handed to speech so far.
   */
  datatype Snapshot = Snapshot(
    wordIndex: nat,
    charIndex: nat,
    correctChars: nat,
    startedAt: Option<int>,
    finishedAt: Option<int>,
    waitingNext: bool,
    endShown: bool,
    display: seq<Span>,
    meaning: string,
    remaining: nat,
    score: Option<nat>,
    spoken: seq<string>)

  /** `items[i] || {word: '', meaning: ''}` */
  function Current(items: seq<WordItem>, i: nat): (w: WordItem)
    ensures i < |items| ==> w == items[i]
    ensures i >= |items| ==> w.word == [] && w.meaning == []
  {
    if i < |items| then items[i] else WordItem("", "")
  }

  /** Total length of the words of `ws`. */
  function TotalChars(ws: seq<WordItem>): nat {
    if ws == [] then 0 else TotalChars(ws[..|ws| - 1]) + |ws[|ws| - 1].word|
  }

  /** `renderWord(showWrong)`: redraw the word, its meaning and the counter. */
  function Render(items: seq<WordItem>, s: Snapshot, showWrong: bool): (t: Snapshot)
    ensures t.display == WordHtml(Current(items, s.wordIndex).word, s.charIndex, showWrong)
    ensures t.meaning == Current(items, s.wordIndex).meaning
    ensures t.remaining == Remaining(|items|, s.wordIndex)
    ensures t.(display := s.display, meaning := s.meaning, remaining := s.remaining) == s
  {
    s.(display := WordHtml(Current(items, s.wordIndex).word, s.charIndex, showWrong),
       meaning := Current(items, s.wordIndex).meaning,
       remaining := Remaining(|items|, s.wordIndex))
  }

  /** `speakWord(text)`: an empty text is not spoken. */
  function Speak(s: Snapshot, text: string): (t: Snapshot)
    ensures t.spoken == if text == [] then s.spoken else s.spoken + [text]
    ensures t.(spoken := s.spoken) == s
  {
    if text == [] then s else s.(spoken := s.spoken + [text])
  }

  /** `!startedAt`: the clock has not started (a start time of 0 counts as unset). */
  predicate Unstarted(s: Snapshot): (unset: bool)
    ensures unset <==> s.startedAt == None || s.startedAt == Some(0)
  {
    s.startedAt.None? || s.startedAt.value == 0
  }

  /** The state when the page has loaded: nothing typed, the first word drawn. */
  function Initial(items: seq<WordItem>): (s: Snapshot)
    ensures s.wordIndex == 0 && s.charIndex == 0 && s.correctChars == 0
    ensures s.startedAt.None? && s.finishedAt.None? && s.score.None?
    ensures !s.waitingNext && !s.endShown && s.spoken == []
    ensures s.display == WordHtml(Current(items, 0).word, 0, false)
    ensures s.remaining == |items|
  {
    Render(items, Snapshot(0, 0, 0, None, None, false, false, [], "", 0, None, []), false)
  }

  /** The first single-character key starts the clock and speaks the word. */
  function StartClock(items: seq<WordItem>, s: Snapshot, key: string, now: int): (t: Snapshot)
    ensures Unstarted(s) && |key| == 1 ==> t.startedAt == Some(now)
    ensures Unstarted(s) && |key| == 1 ==>
      t.spoken == s.spoken + (if Current(items, s.wordIndex).word != [] then [Current(items, s.wordIndex).word] else [])
    ensures !(Unstarted(s) && |key| == 1) ==> t == s
    ensures t.(startedAt := s.startedAt, spoken := s.spoken) == s
  {
    if Unstarted(s) && |key| == 1 then
      Speak(s.(startedAt := Some(now)), Current(items, s.wordIndex).word)
    else s
  }

  /** Whether `key` is the expected character, compared case-insensitively. */
  predicate Matches(key: string, expected: char): (m: bool)
    ensures m ==> |key| == 1
    ensures |key| == 1 && key[0] == expected ==> m
    ensures |key| == 1 && 'a' <= expected <= 'z' ==>
      (m <==> key[0] == expected || key[0] as int == expected as int - 32)
    ensures |key| == 1 && 'A' <= expected <= 'Z' ==>
      (m <==> key[0] == expected || key[0] as int == expected as int + 32)
    ensures |key| == 1 && !('a' <= expected <= 'z') && !('A' <= expected <= 'Z') ==> (m <==> key[0] == expected)
  {
    |key| == 1 && LowerChar(key[0]) == LowerChar(expected)
  }

  /** Whether the keydown handler accepts `key` as the next character. */
  predicate Accepts(items: seq<WordItem>, s: Snapshot, key: string) {
    && !s.waitingNext && !s.endShown
    && s.charIndex < |Current(items, s.wordIndex).word|
    && Matches(key, Current(items, s.wordIndex).word[s.charIndex])
  }

  /** The keydown handler, for a key `key` pressed at time `now`. */
  function OnKey(items: seq<WordItem>, s: Snapshot, key: string, now: int): (t: Snapshot)
    ensures s.waitingNext || s.endShown ==> t == s
    ensures t.wordIndex == s.wordIndex
    ensures Accepts(items, s, key) ==> t.charIndex == s.charIndex + 1 && t.correctChars == s.correctChars + 1
    ensures !Accepts(items, s, key) ==> t.charIndex == s.charIndex && t.correctChars == s.correctChars
    ensures t.waitingNext <==>
      s.waitingNext || (Accepts(items, s, key) && t.charIndex == |Current(items, s.wordIndex).word|)
    ensures t.endShown == s.endShown && t.finishedAt == s.finishedAt && t.score == s.score
    ensures var starts := !s.waitingNext && !s.endShown && Unstarted(s) && |key| == 1;
      && t.startedAt == (if starts then Some(now) else s.startedAt)
      && t.spoken == s.spoken + (if starts && Current(items, s.wordIndex).word != [] then [Current(items, s.wordIndex).word] else [])
    ensures Accepts(items, s, key) ==> t.display == WordHtml(Current(items, s.wordIndex).word, s.charIndex + 1, false)
    ensures (!s.waitingNext && !s.endShown && (|key| != 1 || s.charIndex >= |Current(items, s.wordIndex).word|)) ==>
      t.display == s.display
  {
    if s.waitingNext || s.endShown then s
    else
      var s1 := StartClock(items, s, key, now);
      var word := Current(items, s.wordIndex).word;
      if s1.charIndex >= |word| || |key| != 1 then s1
      else if LowerChar(key[0]) == LowerChar(word[s1.charIndex]) then
        var s2 := Render(items, s1.(charIndex := s1.charIndex + 1, correctChars := s1.correctChars + 1), false);
        if s2.charIndex == |word| then s2.(waitingNext := true) else s2
      else Render(items, s1, true)
  }

  /** `finish()` at time `now`: show the end screen and the score. */
  function Finish(s: Snapshot, now: int): (t: Snapshot)
    ensures t.endShown && t.finishedAt == Some(now)
    ensures t.score == Some(Wpm(s.correctChars, ElapsedMs(s.startedAt, now)))
    ensures t.(endShown := s.endShown, finishedAt := s.finishedAt, score := s.score) == s
  {
    s.(finishedAt := Some(now), endShown := true,
       score := Some(Wpm(s.correctChars, ElapsedMs(s.startedAt, now))))
  }

  /** `nextWord()` at time `now`. */
  function NextWord(items: seq<WordItem>, s: Snapshot, now: int): (t: Snapshot)
    ensures t.wordIndex == s.wordIndex + 1 && t.charIndex == 0 && !t.waitingNext
    ensures t.correctChars == s.correctChars && t.spoken == s.spoken && t.startedAt == s.startedAt
    ensures t.endShown <==> s.endShown || t.wordIndex >= |items|
    ensures t.wordIndex >= |items| ==>
      && t.finishedAt == Some(now) && t.score == Some(Wpm(s.correctChars, ElapsedMs(s.startedAt, now)))
      && t.display == s.display && t.meaning == s.meaning && t.remaining == s.remaining
    ensures t.wordIndex < |items| ==>
      && t.finishedAt == s.finishedAt && t.score == s.score
      && t.display == WordHtml(items[t.wordIndex].word, 0, false)
      && t.meaning == items[t.wordIndex].meaning && t.remaining == |items| - t.wordIndex
  {
    var s1 := s.(wordIndex := s.wordIndex + 1, charIndex := 0, waitingNext := false);
    if s1.wordIndex >= |items| then Finish(s1, now) else Render(items, s1, false)
  }

  /** The timer callback a completed word schedules: next word, then speak it. */
  function OnAdvance(items: seq<WordItem>, s: Snapshot, now: int): (t: Snapshot)
    ensures t.wordIndex == s.wordIndex + 1 && t.charIndex == 0 && !t.waitingNext
    ensures t.correctChars == s.correctChars && t.startedAt == s.startedAt
    ensures t.endShown <==> s.endShown || t.wordIndex >= |items|
    ensures t.spoken == s.spoken + (if t.wordIndex < |items| && items[t.wordIndex].word != [] then [items[t.wordIndex].word] else [])
    ensures t.wordIndex >= |items| ==>
      && t.finishedAt == Some(now) && t.score == Some(Wpm(s.correctChars, ElapsedMs(s.startedAt, now)))
      && t.display == s.display && t.meaning == s.meaning && t.remaining == s.remaining
    ensures t.wordIndex < |items| ==>
      && t.finishedAt == s.finishedAt && t.score == s.score
      && t.display == WordHtml(items[t.wordIndex].word, 0, false)
      && t.meaning == items[t.wordIndex].meaning && t.remaining == |items| - t.wordIndex
  {
    var s1 := NextWord(items, s, now);
    Speak(s1, Current(items, s1.wordIndex).word)
  }

  /** What the handlers keep true of the page between events. */
  ghost predicate Valid(items: seq<WordItem>, s: Snapshot) {
    var word := Current(items, s.wordIndex).word;
    && s.wordIndex <= |items|
    && s.charIndex <= |word|
    && s.correctChars == TotalChars(items[..s.wordIndex]) + s.charIndex
    && (s.waitingNext <==> 0 < s.charIndex == |word|)
    && (s.endShown <==> 0 < s.wordIndex == |items|)
    && (0 < s.wordIndex || 0 < s.charIndex ==> s.startedAt.Some?)
    && (s.endShown ==> s.finishedAt.Some? && s.score == Some(Wpm(s.correctChars, ElapsedMs(s.startedAt, s.finishedAt.value))))
    && (!s.endShown ==>
          && s.finishedAt.None? && s.score.None?
          && s.meaning == Current(items, s.wordIndex).meaning
          && s.remaining == Remaining(|items|, s.wordIndex)
          && (s.display == WordHtml(word, s.charIndex, false) || s.display == WordHtml(word, s.charIndex, true)))
  }

  lemma InitialValid(items: seq<WordItem>)
    ensures Valid(items, Initial(items))
  {
  }

  lemma TotalCharsStep(items: seq<WordItem>, i: nat)
    requires i < |items|
    ensures TotalChars(items[..i + 1]) == TotalChars(items[..i]) + |items[i].word|
  {
    assert items[..i + 1][..i] == items[..i];
  }

  lemma OnKeyValid(items: seq<WordItem>, s: Snapshot, key: string, now: int)
    requires Valid(items, s)
    ensures Valid(items, OnKey(items, s, key, now))
  {
  }

  lemma OnAdvanceValid(items: seq<WordItem>, s: Snapshot, now: int)
    requires Valid(items, s) && s.waitingNext
    ensures Valid(items, OnAdvance(items, s, now))
  {
    TotalCharsStep(items, s.wordIndex);
  }

  /**
   * Once the end screen shows, every word has been typed and the score
   * is the words per minute of all their characters.
   */
  lemma EndedScore(items: seq<WordItem>, s: Snapshot)
    requires Valid(items, s) && s.endShown
    ensures s.wordIndex == |items| && s.correctChars == TotalChars(items)
    ensures s.score == Some(Wpm(TotalChars(items), ElapsedMs(s.startedAt, s.finishedAt.value)))
  {
    assert items[..|items|] == items;
  }

  /** A key that does not match shows the current character as wrong and changes no counter. */
  lemma WrongKey(items: seq<WordItem>, s: Snapshot, key: string, now: int)
    requires !s.waitingNext && !s.endShown && |key| == 1
    requires s.charIndex < |Current(items, s.wordIndex).word|
    requires !Matches(key, Current(items, s.wordIndex).word[s.charIndex])
    ensures var t := OnKey(items, s, key, now);
      && t.charIndex == s.charIndex && t.correctChars == s.correctChars && !t.waitingNext
      && t.display == WordHtml(Current(items, s.wordIndex).word, s.charIndex, true)
      && t.display[s.charIndex].cls == CurrentWrong
  {
  }

  /** A current word that is empty can never be completed: keys change nothing but the clock. */
  lemma EmptyWordStuck(items: seq<WordItem>, s: Snapshot, key: string, now: int)
    requires Current(items, s.wordIndex).word == [] && !s.waitingNext && !s.endShown
    ensures var t := OnKey(items, s, key, now);
      t == StartClock(items, s, key, now) && !t.waitingNext
  {
  }

  /** An event of the page: a key pressed, or the pending timer firing. */
  datatype Event = Key(key: string, at: int) | Advance(at: int)

  /**
   * The page after one event. The timer is pending exactly while
   * `waitingNext` holds, so an `Advance` at any other time is not an event.
   */
  function Step(items: seq<WordItem>, s: Snapshot, e: Event): Snapshot {
    match e
    case Key(key, at) => OnKey(items, s, key, at)
    case Advance(at) => if s.waitingNext then OnAdvance(items, s, at) else s
  }

  /** The page after `events`, in order. */
  function Run(items: seq<WordItem>, s: Snapshot, events: seq<Event>): Snapshot
    decreases |events|
  {
    if events == [] then s else Run(items, Step(items, s, events[0]), events[1..])
  }

  lemma {:induction false} RunValid(items: seq<WordItem>, s: Snapshot, events: seq<Event>)
    requires Valid(items, s)
    ensures Valid(items, Run(items, s, events))
    decreases |events|
  {
    if events != [] {
      match events[0] {
        case Key(key, at) => OnKeyValid(items, s, key, at);
        case Advance(at) => if s.waitingNext { OnAdvanceValid(items, s, at); }
      }
      RunValid(items, Step(items, s, events[0]), events[1..]);
    }
  }

  lemma {:induction false} RunAppend(items: seq<WordItem>, s: Snapshot, a: seq<Event>, b: seq<Event>)
    ensures Run(items, s, a + b) == Run(items, Run(items, s, a), b)
    decreases |a|
  {
    if a != [] {
      assert (a + b)[0] == a[0];
      assert (a + b)[1..] == a[1..] + b;
      RunAppend(items, Step(items, s, a[0]), a[1..], b);
    } else {
      assert a + b == b;
    }
  }

  /** Pressing the characters of `word`, from position `from` on, at time `at`. */
  function WordKeys(word: string, from: nat, at: int): (keys: seq<Event>)
    requires from <= |word|
    ensures |keys| == |word| - from
    ensures forall i :: 0 <= i < |keys| ==> keys[i] == Key([word[from + i]], at)
    decreases |word| - from
  {
    if from == |word| then [] else [Key([word[from]], at)] + WordKeys(word, from + 1, at)
  }

  /**
   * Typing the rest of the current word completes it: every key is
   * accepted, the word is then waiting for the timer, and each character
   * was counted once. The first key of the session starts the clock and
   * speaks the word.
   */
  lemma {:induction false} TypeRest(items: seq<WordItem>, s: Snapshot, at: int)
    requires Valid(items, s) && !s.waitingNext && !s.endShown && at != 0
    requires s.wordIndex < |items| && s.charIndex < |items[s.wordIndex].word|
    ensures var t := Run(items, s, WordKeys(items[s.wordIndex].word, s.charIndex, at));
      && Valid(items, t)
      && t.wordIndex == s.wordIndex && t.waitingNext && !t.endShown
      && t.charIndex == |items[s.wordIndex].word|
      && t.correctChars == s.correctChars + |items[s.wordIndex].word| - s.charIndex
      && t.startedAt == (if Unstarted(s) then Some(at) else s.startedAt)
      && t.spoken == s.spoken + (if Unstarted(s) then [items[s.wordIndex].word] else [])
    decreases |items[s.wordIndex].word| - s.charIndex
  {
    var word := items[s.wordIndex].word;
    var keys := WordKeys(word, s.charIndex, at);
    var key := [word[s.charIndex]];
    var s1 := OnKey(items, s, key, at);
    assert Accepts(items, s, key);
    OnKeyValid(items, s, key, at);
    assert keys[0] == Key(key, at);
    assert Step(items, s, keys[0]) == s1;
    assert keys[1..] == WordKeys(word, s.charIndex + 1, at);
    assert Run(items, s, keys) == Run(items, s1, keys[1..]);
    if s.charIndex + 1 < |word| {
      TypeRest(items, s1, at);
    } else {
      assert keys[1..] == [];
    }
  }

  /** Every word of `items` has at least one character. */
  predicate Typeable(items: seq<WordItem>) {
    forall i :: 0 <= i < |items| ==> items[i].word != []
  }

  /** The words of `items`, in order. */
  function Words(items: seq<WordItem>): (ws: seq<string>)
    ensures |ws| == |items| && forall i :: 0 <= i < |items| ==> ws[i] == items[i].word
  {
    seq(|items|, i requires 0 <= i < |items| => items[i].word)
  }

  lemma WordsFrom(items: seq<WordItem>, j: nat, prior: seq<string>)
    requires j < |items|
    ensures prior + [items[j].word] + Words(items)[j + 1..] == prior + Words(items)[j..]
  {
    assert Words(items)[j..] == [items[j].word] + Words(items)[j + 1..];
  }

  /** Typing every word from `from` on, each followed by its timer firing, all at time `at`. */
  function Script(items: seq<WordItem>, from: nat, at: int): seq<Event>
    decreases |items| - from
  {
    if from >= |items| then []
    else WordKeys(items[from].word, 0, at) + [Advance(at)] + Script(items, from + 1, at)
  }

  /** Typing the current word from its start and letting the timer fire. */
  lemma WordAndAdvance(items: seq<WordItem>, s: Snapshot, at: int)
    requires Typeable(items) && Valid(items, s) && at != 0
    requires s.wordIndex < |items| && s.charIndex == 0 && !s.endShown
    ensures var i := s.wordIndex;
      var t := Run(items, s, WordKeys(items[i].word, 0, at) + [Advance(at)]);
      && Valid(items, t)
      && t.wordIndex == i + 1 && t.charIndex == 0
      && (t.endShown <==> i + 1 == |items|)
      && (t.endShown ==> t.finishedAt == Some(at))
      && t.startedAt == (if Unstarted(s) then Some(at) else s.startedAt)
      && t.spoken == s.spoken + (if Unstarted(s) then [items[i].word] else [])
                             + (if i + 1 < |items| then [items[i + 1].word] else [])
  {
    var keys := WordKeys(items[s.wordIndex].word, 0, at);
    assert !s.waitingNext;
    RunAppend(items, s, keys, [Advance(at)]);
    TypeRest(items, s, at);
    var t1 := Run(items, s, keys);
    OnAdvanceValid(items, t1, at);
    assert Run(items, t1, [Advance(at)]) == OnAdvance(items, t1, at);
  }

  /**
   * From the start of a word, typing it and every later word ends the
   * session having counted every character and spoken every later word.
   */
  lemma {:induction false} CompleteFrom(items: seq<WordItem>, s: Snapshot, at: int)
    requires Typeable(items) && Valid(items, s) && at != 0
    requires s.wordIndex < |items| && s.charIndex == 0 && !s.endShown
    requires s.startedAt.Some? && s.startedAt.value != 0
    ensures var t := Run(items, s, Script(items, s.wordIndex, at));
      && Valid(items, t) && t.endShown
      && t.correctChars == TotalChars(items)
      && t.startedAt == s.startedAt && t.finishedAt == Some(at)
      && t.spoken == s.spoken + Words(items)[s.wordIndex + 1..]
    decreases |items| - s.wordIndex
  {
    var i := s.wordIndex;
    var step := WordKeys(items[i].word, 0, at) + [Advance(at)];
    var rest := Script(items, i + 1, at);
    assert Script(items, i, at) == step + rest;
    RunAppend(items, s, step, rest);
    WordAndAdvance(items, s, at);
    var t2 := Run(items, s, step);
    var t := Run(items, t2, rest);
    if i + 1 < |items| {
      assert !Unstarted(s);
      assert t2.spoken == s.spoken + [items[i + 1].word];
      CompleteFrom(items, t2, at);
      WordsFrom(items, i + 1, s.spoken);
    } else {
      assert rest == [];
      assert t == t2;
      assert Words(items)[i + 1..] == [];
      EndedScore(items, t2);
    }
  }

  /** The first word of a fresh page typed and its timer fired. */
  lemma FirstWord(items: seq<WordItem>, at: int)
    requires Typeable(items) && |items| > 0 && at != 0
    ensures var t := Run(items, Initial(items), WordKeys(items[0].word, 0, at) + [Advance(at)]);
      && Valid(items, t) && t.wordIndex == 1 && t.charIndex == 0
      && (t.endShown <==> 1 == |items|) && t.startedAt == Some(at)
      && (t.endShown ==> t.finishedAt == Some(at))
      && t.spoken == [items[0].word] + (if 1 < |items| then [items[1].word] else [])
  {
    InitialValid(items);
    WordAndAdvance(items, Initial(items), at);
  }

  /** The words after the first typed, from the state `FirstWord` describes. */
  lemma LaterWords(items: seq<WordItem>, s: Snapshot, at: int)
    requires Typeable(items) && |items| > 0 && at != 0
    requires Valid(items, s) && s.wordIndex == 1 && s.charIndex == 0
    requires (s.endShown <==> 1 == |items|) && s.startedAt == Some(at)
    requires s.endShown ==> s.finishedAt == Some(at)
    requires s.spoken == [items[0].word] + (if 1 < |items| then [items[1].word] else [])
    ensures var t := Run(items, s, Script(items, 1, at));
      Valid(items, t) && t.endShown && t.spoken == Words(items) && t.startedAt == Some(at)
      && t.finishedAt == Some(at)
  {
    if 1 < |items| {
      CompleteFrom(items, s, at);
      WordsFrom(items, 1, [items[0].word]);
      WordsFrom(items, 0, []);
      assert Words(items)[0..] == Words(items);
    } else {
      assert Script(items, 1, at) == [];
      assert Words(items) == [items[0].word];
    }
  }

  /**
   * A whole session: typing every word of a non-empty list of non-empty
   * words, letting each timer fire, reaches the end screen having counted
   * every character and spoken every word once, in order.
   */
  lemma PlayThrough(items: seq<WordItem>, at: int)
    requires Typeable(items) && |items| > 0 && at != 0
    ensures var t := Run(items, Initial(items), Script(items, 0, at));
      && t.endShown && t.wordIndex == |items|
      && t.correctChars == TotalChars(items)
      && t.spoken == Words(items)
      && t.finishedAt == Some(at)
      && t.score == Some(Wpm(TotalChars(items), ElapsedMs(Some(at), at)))
  {
    var s := Initial(items);
    var step := WordKeys(items[0].word, 0, at) + [Advance(at)];
    var rest := Script(items, 1, at);
    assert Script(items, 0, at) == step + rest;
    RunAppend(items, s, step, rest);
    FirstWord(items, at);
    LaterWords(items, Run(items, s, step), at);
    EndedScore(items, Run(items, s, Script(items, 0, at)));
  }

  /**
   * Only the timer callback calls `finish`, and with no words no word is
   * ever completed: an empty list never reaches the end screen.
   */
  lemma EmptyListNeverFinishes(events: seq<Event>)
    ensures !Run([], Initial([]), events).endShown
  {
    InitialValid([]);
    RunValid([], Initial([]), events);
  }

  /** Typing "cat" and "dog", each followed by its timer, counts 6 characters over 2 words. */
  lemma CatDog(at: int)
    requires at != 0
    ensures var items := [WordItem("cat", ""), WordItem("dog", "")];
      var t := Run(items, Initial(items), Script(items, 0, at));
      t.endShown && t.wordIndex == 2 && t.correctChars == 6 && t.spoken == ["cat", "dog"]
  {
    var items := [WordItem("cat", ""), WordItem("dog", "")];
    PlayThrough(items, at);
    assert items[..1] == [WordItem("cat", "")];
    assert TotalChars(items) == 6;
    assert Words(items) == ["cat", "dog"];
  }
  /** One accepted key of the current word, pressed at `now`. */
  lemma AcceptKey(items: seq<WordItem>, s: Snapshot, c: char, now: int)
    requires !s.waitingNext && !s.endShown
    requires s.charIndex < |Current(items, s.wordIndex).word| && c == Current(items, s.wordIndex).word[s.charIndex]
    ensures var t := OnKey(items, s, [c], now);
      && t.wordIndex == s.wordIndex && t.charIndex == s.charIndex + 1 && t.correctChars == s.correctChars + 1
      && (t.waitingNext <==> t.charIndex == |Current(items, s.wordIndex).word|) && !t.endShown
      && t.startedAt == (if Unstarted(s) then Some(now) else s.startedAt)
  {
    assert Accepts(items, s, [c]);
  }

  /** Four events, one after the other. */
  lemma RunFour(items: seq<WordItem>, s: Snapshot, e1: Event, e2: Event, e3: Event, e4: Event)
    ensures Run(items, s, [e1, e2, e3, e4]) ==
      Step(items, Step(items, Step(items, Step(items, s, e1), e2), e3), e4)
  {
    var s1 := Step(items, s, e1);
    var s2 := Step(items, s1, e2);
    var s3 := Step(items, s2, e3);
    assert Run(items, s, [e1, e2, e3, e4]) == Run(items, s1, [e2, e3, e4]) by {
      assert [e1, e2, e3, e4][1..] == [e2, e3, e4];
    }
    assert Run(items, s1, [e2, e3, e4]) == Run(items, s2, [e3, e4]) by {
      assert [e2, e3, e4][1..] == [e3, e4];
    }
    assert Run(items, s2, [e3, e4]) == Run(items, s3, [e4]) by {
      assert [e3, e4][1..] == [e4];
    }
    assert Run(items, s3, [e4]) == Step(items, s3, e4) by {
      assert [e4][1..] == [];
    }
  }

  /** 6 characters (1.2 words) in 2500 ms are 28.8 words per minute, rounded to 29. */
  lemma WpmTimed()
    ensures Wpm(6, 2500) == 29
  {
  }

  /** The first half of `CatDogTimed`: "cat" typed from 1000 ms, its timer at 2200 ms. */
  lemma CatTimed(items: seq<WordItem>, s0: Snapshot)
    requires items == [WordItem("cat", ""), WordItem("dog", "")]
    requires s0.wordIndex == 0 && s0.charIndex == 0 && s0.correctChars == 0
    requires s0.startedAt.None? && !s0.waitingNext && !s0.endShown
    ensures var a := Run(items, s0, [Key("c", 1000), Key("a", 1100), Key("t", 1200), Advance(2200)]);
      && a.wordIndex == 1 && a.charIndex == 0 && !a.endShown && !a.waitingNext
      && a.startedAt == Some(1000) && a.correctChars == 3
  {
    var k1 := OnKey(items, s0, "c", 1000);
    var k2 := OnKey(items, k1, "a", 1100);
    assert Current(items, 0).word == "cat";
    AcceptKey(items, s0, 'c', 1000);
    AcceptKey(items, k1, 'a', 1100);
    AcceptKey(items, k2, 't', 1200);
    RunFour(items, s0, Key("c", 1000), Key("a", 1100), Key("t", 1200), Advance(2200));
  }

  /** The timer after "dog", at 3500 ms, shows the end screen with the score. */
  lemma LastTimer(items: seq<WordItem>, k: Snapshot)
    requires items == [WordItem("cat", ""), WordItem("dog", "")]
    requires k.wordIndex == 1 && k.waitingNext && k.correctChars == 6 && k.startedAt == Some(1000)
    ensures var t := Step(items, k, Advance(3500));
      && t.endShown && t.correctChars == 6 && t.startedAt == Some(1000)
      && t.finishedAt == Some(3500) && t.score == Some(29)
  {
    assert OnAdvance(items, k, 3500) == Finish(k.(wordIndex := 2, charIndex := 0, waitingNext := false), 3500);
    assert ElapsedMs(Some(1000), 3500) == 2500;
    WpmTimed();
  }

  /** The second half of `CatDogTimed`: "dog" typed from 2300 ms, its timer at 3500 ms. */
  lemma DogTimed(items: seq<WordItem>, a: Snapshot)
    requires items == [WordItem("cat", ""), WordItem("dog", "")]
    requires a.wordIndex == 1 && a.charIndex == 0 && !a.endShown && !a.waitingNext
    requires a.startedAt == Some(1000) && a.correctChars == 3
    ensures var t := Run(items, a, [Key("d", 2300), Key("o", 2400), Key("g", 2500), Advance(3500)]);
      && t.endShown && t.correctChars == 6 && t.startedAt == Some(1000)
      && t.finishedAt == Some(3500) && t.score == Some(29)
  {
    var k4 := OnKey(items, a, "d", 2300);
    var k5 := OnKey(items, k4, "o", 2400);
    assert Current(items, 1).word == "dog";
    AcceptKey(items, a, 'd', 2300);
    AcceptKey(items, k4, 'o', 2400);
    AcceptKey(items, k5, 'g', 2500);
    RunFour(items, a, Key("d", 2300), Key("o", 2400), Key("g", 2500), Advance(3500));
    LastTimer(items, OnKey(items, k5, "g", 2500));
  }

  /**
   * "cat" typed from 1000 ms at 100 ms a key, its timer firing at 2200 ms,
   * then "dog" from 2300 ms and its timer at 3500 ms: 6 characters over
   * 2500 ms, which `Math.round(1.2 / (2500 / 60000))` scores 29.
   */
  lemma CatDogTimed(items: seq<WordItem>)
    requires items == [WordItem("cat", ""), WordItem("dog", "")]
    ensures var t := Run(items, Initial(items),
      [Key("c", 1000), Key("a", 1100), Key("t", 1200), Advance(2200),
       Key("d", 2300), Key("o", 2400), Key("g", 2500), Advance(3500)]);
      && t.endShown && t.correctChars == 6 && t.startedAt == Some(1000)
      && t.finishedAt == Some(3500) && t.score == Some(29)
  {
    var cat := [Key("c", 1000), Key("a", 1100), Key("t", 1200), Advance(2200)];
    var dog := [Key("d", 2300), Key("o", 2400), Key("g", 2500), Advance(3500)];
    RunAppend(items, Initial(items), cat, dog);
    CatTimed(items, Initial(items));
    DogTimed(items, Run(items, Initial(items), cat));
  }
}
