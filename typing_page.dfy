/**
 * The typing page as the browser runs it: the script's variables and the
 * elements it writes are fields of one object, and each handler updates
 * them in place. Every handler is proved to leave the object in the state
 * the matching function of TypingEngine computes.
 */
module TypingPage {
  import opened Wrappers
  import opened Text
  import opened WordPool
  import opened TypingDisplay
  import opened TypingEngine

  class Session {
    /** The sampled words the server embedded in the page. */
    const items: seq<WordItem>
    /** `totalWords` */
    const totalWords: nat

    var currentWordIndex: nat
    var currentCharIndex: nat
    var correctChars: nat
    var startedAt: Option<int>
    var finishedAt: Option<int>
    var waitingNext: bool
    /** Whether the end screen is displayed. */
    var endShown: bool
    /** The spans of the word display. */
    var wordDisplay: seq<Span>
    /** The text of the meaning element. */
    var meaningText: string
    /** The number shown in the remaining counter. */
    var remainingShown: nat
    /** The score written to the end screen. */
    var finalWpm: Option<nat>
    /** The words handed to speech synthesis, in order. */
    var spoken: seq<string>

    /** The page as a snapshot. */
    function State(): Snapshot
      reads this
    {
      Snapshot(currentWordIndex, currentCharIndex, correctChars, startedAt, finishedAt,
               waitingNext, endShown, wordDisplay, meaningText, remainingShown, finalWpm, spoken)
    }

    ghost predicate Valid()
      reads this
    {
      totalWords == |items| && TypingEngine.Valid(items, State())
    }

    /** Loading the page: the variables start at zero and the first word is drawn. */
    constructor(words: seq<WordItem>)
      ensures items == words && State() == Initial(words)
      ensures Valid()
    {
      items := words;
      totalWords := |words|;
      currentWordIndex := 0;
      currentCharIndex := 0;
      correctChars := 0;
      startedAt := None;
      finishedAt := None;
      waitingNext := false;
      endShown := false;
      wordDisplay := [];
      meaningText := "";
      remainingShown := 0;
      finalWpm := None;
      spoken := [];
      new;
      RenderWord(false);
      InitialValid(words);
    }

    /** `renderWord(showWrong)` */
    method RenderWord(showWrong: bool)
      requires totalWords == |items|
      modifies this
      ensures State() == Render(items, old(State()), showWrong)
    {
      var cur := if currentWordIndex < totalWords then items[currentWordIndex] else WordItem("", "");
      var html := BuildWordHtml(cur.word, currentCharIndex, showWrong);
      wordDisplay := html;
      meaningText := cur.meaning;
      remainingShown := if totalWords - currentWordIndex > 0 then totalWords - currentWordIndex else 0;
    }

    /** `speakWord(text)`, recording what is handed to speech. */
    method SpeakWord(text: string)
      modifies this
      ensures State() == Speak(old(State()), text)
    {
      if text != [] {
        spoken := spoken + [text];
      }
    }

    /** `finish()` at time `now`. */
    method Finish(now: int)
      modifies this
      ensures State() == TypingEngine.Finish(old(State()), now)
    {
      finishedAt := Some(now);
      var elapsedMs := ElapsedMs(startedAt, now);
      var wpm := Wpm(correctChars, elapsedMs);
      endShown := true;
      finalWpm := Some(wpm);
    }

    /** `nextWord()` at time `now`. */
    method NextWord(now: int)
      requires totalWords == |items|
      modifies this
      ensures State() == TypingEngine.NextWord(items, old(State()), now)
    {
      currentWordIndex := currentWordIndex + 1;
      currentCharIndex := 0;
      waitingNext := false;
      if currentWordIndex >= totalWords {
        Finish(now);
      } else {
        RenderWord(false);
      }
    }

    /** The keydown listener, for key `key` pressed at time `now`. */
    method Keydown(key: string, now: int)
      requires Valid()
      modifies this
      ensures State() == OnKey(items, old(State()), key, now)
      ensures Valid()
    {
      OnKeyValid(items, State(), key, now);
      HandleKey(key, now);
    }

    /** The body of the keydown listener. */
    method HandleKey(key: string, now: int)
      requires totalWords == |items|
      modifies this
      ensures State() == OnKey(items, old(State()), key, now)
    {
      if waitingNext || endShown {
        return;
      }
      StartClock(key, now);
      var word := if currentWordIndex < totalWords then items[currentWordIndex].word else "";
      if currentCharIndex >= |word| || |key| != 1 {
        return;
      }
      if LowerChar(key[0]) == LowerChar(word[currentCharIndex]) {
        currentCharIndex := currentCharIndex + 1;
        correctChars := correctChars + 1;
        RenderWord(false);
        if currentCharIndex == |word| {
          waitingNext := true;
        }
      } else {
        RenderWord(true);
      }
    }

    /** The first single-character key starts the clock and speaks the current word. */
    method StartClock(key: string, now: int)
      requires totalWords == |items|
      modifies this
      ensures State() == TypingEngine.StartClock(items, old(State()), key, now)
    {
      if (startedAt.None? || startedAt.value == 0) && |key| == 1 {
        startedAt := Some(now);
        var cur0 := if currentWordIndex < totalWords then items[currentWordIndex] else WordItem("", "");
        SpeakWord(cur0.word);
      }
    }

    /** The timer a completed word schedules, firing at time `now`. */
    method TimerFires(now: int)
      requires Valid() && waitingNext
      modifies this
      ensures State() == OnAdvance(items, old(State()), now)
      ensures Valid()
    {
      OnAdvanceValid(items, State(), now);
      NextWord(now);
      var next := if currentWordIndex < totalWords then items[currentWordIndex] else WordItem("", "");
      SpeakWord(next.word);
    }
  }
}
