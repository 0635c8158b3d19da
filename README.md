# hydro-typing: a verified model of the typing-practice core

hydro-typing is a plugin for the Hydro online judge. Its typing-practice page works in three stages:

- **Word list.** The server reads a JSON file of vocabulary items and sanitises it into `{word, meaning}` records. It takes the first 300 records, shuffles them with a random comparator and keeps 5.
- **Page script.** The browser runs a small state machine over those words. A keystroke advances the character cursor when it matches case-insensitively. A completed word waits one second on a timer and then moves on. After the last word the page shows a words-per-minute score.
- **Static files.** The script and stylesheet are served under `/public/:filename`. The route registered at index.ts:366 uses the handler of index.ts:276-283, which joins the filename onto the `public` directory with no check. A second handler, at utils/public.ts:5-21, guards the path with a prefix test, but no route in index.ts registers it (an entry file that might register it is not part of this model).

The model covers these parts:

- `WordPool` models the word-list sanitisation. The parsed JSON is a `Json.Value` datatype, and a failed parse is the `SyntaxError` variant.
- `WordSample` models the 300/5 sample. The random-comparator sort is an arbitrary permutation `order`, passed as an argument.
- `TypingEngine` holds the page's state machine as pure functions on a `Snapshot` of the script's variables and of what the page shows:
  - the keydown handler;
  - `nextWord` and the timer callback;
  - `finish`;
  - `renderWord`.
  
  It also holds an invariant those functions keep, and lemmas about whole runs of events.
- `TypingPage.Session` is the same script as a class whose fields are the script's variables. Its handlers update the fields in place, and each handler is proved to produce exactly the state the matching `TypingEngine` function computes.
- `TypingDisplay` holds the pure helpers:
  - `pad2`;
  - the remaining-words counter;
  - the per-character classes of `renderWord`, built by a loop;
  - the elapsed time;
  - the WPM score.
  
  The score is computed in integers. Over the real numbers, `round((c / 5) / (ms / 60000))` equals `floor((24000·c + ms) / (2·ms))`. The browser computes in floating point, which can round an exact half down (see `TypingDisplay.Wpm` under "## Left out").
- `Voices` models `pickEnglishVoice`.
- `PosixPath` models POSIX `path.join` and `path.normalize` by splitting on `/` and resolving `.` and `..` segments.
- `PublicFiles` models the two `/public/:filename` handlers.

The server's file directory (`__dirname`), the clock (`Date.now()`) and the keystrokes are parameters. The one-second timer is an explicit `TimerFires` call, or an `Advance` event in `TypingEngine.Run`. The words handed to speech synthesis are recorded in a `spoken` field.

Notes on the code that the model follows:

- The sample is "first 300, random-comparator sort, first 5". The comment next to it speaks of 50 words, but the code keeps 5.
- An empty word list never reaches the end screen, and so never yields a score of 0. `finish` is only reached from the timer callback, which needs a completed word (`TypingEngine.EmptyListNeverFinishes`).
- `!startedAt` treats a start time of 0 as unset. A clock started at time 0 is started again, and the current word spoken again, by the next single-character key (`TypingEngine.Unstarted`).
- The registered handler in index.ts reads `join(__dirname, 'public', filename)` with no containment test at all. A filename `../f` reads a file beside the `public` directory (`PublicFiles.UnguardedEscapes`). The `:filename` route parameter does not match `/`, so such a filename reaches the handler only with its slash percent-encoded, as in `..%2Ff`. The same holds for the input in "## Findings".

## Model

| member | source | states |
|---|---|---|
| Json.StringProperty | features/typing.ts:32 | `typeof x.word === 'string'`: a property is a string exactly when the value is an object with that key bound to a JSON string, and the result is that string |
| WordPool.Keep | features/typing.ts:32 | an entry is kept exactly when it is an object whose `word` is a JSON string (every object is truthy) |
| WordPool.Normalise | features/typing.ts:33-36 | a kept entry's `word` is copied unchanged; `meaning` is the entry's `meaning` when that is a string and `''` otherwise |
| WordPool.Filter | features/typing.ts:32 | an entry is kept exactly when it is truthy and its `word` is a string; the output is no longer than the input |
| WordPool.FilterAppend | features/typing.ts:31-36 | filtering distributes over concatenation, so kept entries stay in input order |
| WordPool.FilterKeepsAll | features/typing.ts:32 | a list whose entries all pass the filter is returned unchanged |
| WordPool.MapNormalise | features/typing.ts:33-36 | the map yields one record per kept entry, in position |
| WordPool.Load | features/typing.ts:23-37 | a parse failure or a non-array value gives `[]`; otherwise record `i` is the normalised `i`-th kept entry, with no more records than entries (index.ts:307-321 repeats the same sanitisation) |
| WordPool.LoadEncode | features/typing.ts:30-37 | encoding records as JSON objects and loading them returns the same records (round trip) |
| WordPool.LoadIdempotent | index.ts:314-321 | sanitising an already sanitised list changes nothing |
| WordPool.EmptyWordKept | features/typing.ts:32 | an entry whose `word` is the empty string is not rejected |
| WordSample.Sample | index.ts:325 | the sample has `min(5, min(300, n))` records; record `i` is `words[order[i]]` with `order[i] < 300`; no position is used twice |
| WordSample.PickDistinct | index.ts:325 | picking distinct positions gives a sub-multiset of the source |
| WordSample.SampleFromPrefix | index.ts:325 | every sampled record comes from `words[0..300)`, each at most as often as it occurs there |
| PosixPath.Step | utils/public.ts:8 | one segment of `normalize`: an empty segment or `.` changes nothing, a name is pushed, and `..` pops the last name, stays at the root of an absolute path, or is kept in a relative path with no name to pop |
| PosixPath.Resolve | utils/public.ts:8 | resolving the segments left to right adds at most one entry per segment |
| PosixPath.Normalize | utils/public.ts:8 | `normalize('')` is `.`; the result is never empty, starts with `/` exactly when the path does, and keeps a trailing `/` |
| PosixPath.Join | utils/public.ts:7-8 | `join` of only empty parts is `.`; the result is already normal |
| PosixPath.Split | utils/public.ts:7-8 | splitting on `/` gives at least one segment and no segment contains `/` |
| PosixPath.SplitJoin | utils/public.ts:7-8 | joining segments with `/` and splitting again returns the segments |
| PosixPath.SplitAppend | utils/public.ts:7-8 | splitting `a/b` gives the segments of `a` followed by those of `b` |
| PosixPath.ResolveAppend | utils/public.ts:8 | resolving segments in two parts equals resolving them at once |
| PosixPath.ResolveClean | utils/public.ts:8 | resolution leaves no empty, `.` or `/`-containing segment, no `..` in an absolute path, and `..` only as a leading run |
| PosixPath.ResolveCleanIdentity | utils/public.ts:8 | resolving segments that are already clean changes nothing |
| PosixPath.RenderNormal | utils/public.ts:8 | a rendered clean path is already normal |
| PosixPath.NormalizeIdempotent | utils/public.ts:8 | `normalize(normalize(p)) == normalize(p)` |
| PosixPath.ResolveWithoutParent | utils/public.ts:7-10 | without `..`, resolution only appends the named segments |
| PosixPath.NormalizeBelow | utils/public.ts:7-8 | normalising an absolute directory followed by `/tail` equals resolving the tail onto the directory's segments |
| PublicFiles.JoinOfThree | index.ts:278 | `join` of three non-empty parts normalises them joined by `/` |
| PublicFiles.SuffixesExclusive | utils/public.ts:16-17 | no filename ends with both `.css` and `.js` |
| PublicFiles.ContentType | utils/public.ts:16-17 | the type is `application/javascript` exactly for `.js`, `text/css` exactly for `.css`, and unset otherwise |
| PublicFiles.IndexContentType | index.ts:279-280 | the registered handler sets `text/css` exactly for `.css`, `application/javascript` exactly for `.js` not ending in `.css`, and nothing otherwise |
| PublicFiles.SameContentType | index.ts:279-280 | the unguarded handler, which checks `.js` first, chooses the same type as the guarded one, which checks `.css` first |
| PublicFiles.PublicBase | utils/public.ts:7 | `base = join(__dirname, '..', 'public')` is already normal |
| PublicFiles.ServedPath | utils/public.ts:8 | `normalize(join(base, filename))` equals `join(base, filename)`: the outer `normalize` changes nothing |
| PublicFiles.Decide | utils/public.ts:6-20 | 403 with body `Forbidden` and no type exactly when the normalised joined path does not start with `base`; otherwise the type from the suffix and the file at the normalised path `p`, not at the raw filename |
| PublicFiles.IndexDecide | index.ts:277-282 | no status, the type from the suffix, and always the file at `join(__dirname, 'public', filename)` |
| PublicFiles.PublicBaseShape | utils/public.ts:7 | for an absolute directory, `base` is the directory's parent followed by `public` |
| PublicFiles.ServedFrom | utils/public.ts:7-8 | `p` is the resolution of the filename's segments onto `base` |
| PublicFiles.PlainFilenameInside | utils/public.ts:7-10 | a filename with no `..` segment resolves inside `base` |
| PublicFiles.PlainFilenameServed | utils/public.ts:7-19 | a filename with no `..` segment always passes the guard, and the corrected guard decides the same |
| PublicFiles.InsideBySegments | utils/public.ts:10 | the corrected containment test implies segment-wise containment |
| PublicFiles.DecideContained | utils/public.ts:10 | corrected guard: 403 exactly when `p` is neither `base` nor below `base + "/"` |
| PublicFiles.ContainedStaysInside | utils/public.ts:10 | whatever the corrected guard serves lies segment-wise inside `base` |
| PublicFiles.SiblingPrefixAdmitted | utils/public.ts:10 | the string-prefix guard serves `../public<suffix>/<f>`, a file outside `base`, which the corrected guard refuses |
| PublicFiles.UnguardedEscapes | index.ts:278 | the unguarded handler serves `../f` from the directory containing `public` |
| Voices.FirstEnglish | public/typing.js:7 | the index of the first voice whose language starts with `en`, case-insensitively, or the length if there is none |
| Voices.IsEnglish | public/typing.js:7 | a voice is English exactly when its language has at least two characters, `e` or `E` followed by `n` or `N` |
| Voices.EnglishVoices | public/typing.js:7 | the filter keeps exactly the voices with a non-empty `en*` language, and its head is the first such voice |
| Voices.EnglishVoicesAppend | public/typing.js:7 | filtering distributes over concatenation, so the English voices keep their list order and multiplicity |
| Voices.EnglishVoicesSingle | public/typing.js:7 | a one-voice list is kept exactly when that voice is English |
| Voices.FindNamed | public/typing.js:10 | `find` returns the first voice whose name includes the given name, or nothing when none does |
| Voices.PreferredHit | public/typing.js:8-12 | a hit exists exactly when some preferred name matches some English voice, and a hit is the first match of the earliest matching name |
| Voices.PickEnglishVoice | public/typing.js:5-14 | nothing exactly for an empty list; otherwise a voice from the list, and an English one whenever one exists |
| Voices.PickEnglishVoiceChoice | public/typing.js:5-14 | the choice is the preferred hit if there is one, else the first English voice, else `voices[0]` |
| Text.LowerChar | public/typing.js:111 | `toLowerCase` on one character: ASCII capitals map to their small letters, every other character is unchanged |
| Text.Includes | public/typing.js:10 | `includes` holds exactly when the string occurs at some position |
| Text.Decimal | public/typing.js:62 | `toString` gives at least one digit, all characters are digits, a single digit exactly below 10, and a leading `0` exactly for 0 |
| Text.DecimalRoundTrip | public/typing.js:62 | reading back the decimal digits of `n` gives `n` |
| TypingDisplay.Pad2 | public/typing.js:62 | `padStart(2, '0')` gives only digits, two of them below 100, denoting the same number, with a leading `0` exactly below 10 |
| TypingDisplay.Remaining | public/typing.js:65 | the counter plus the word index is the word total while words remain, and 0 after |
| TypingDisplay.WordHtml | public/typing.js:71-77 | one span per character carrying that character; correct exactly before the cursor; current exactly at the cursor, wrong there exactly when `showWrong` |
| TypingDisplay.BuildWordHtml | public/typing.js:70-77 | the `for` loop appending spans builds exactly `WordHtml` |
| TypingDisplay.WordHtmlCounts | public/typing.js:71-77 | `min(cursor, length)` spans are correct, and one span is current exactly while the word is unfinished |
| TypingDisplay.ElapsedMs | public/typing.js:84 | at least 1; 1 when no key started the clock; otherwise the difference whenever that is positive |
| TypingDisplay.Wpm | public/typing.js:85-86 | the score is `12000·c / ms` rounded to nearest with halves up, stated by two-sided bounds |
| TypingDisplay.WpmBounds | public/typing.js:85-86 | no correct character gives 0, and the score is at most `12000·c` |
| TypingDisplay.WpmExample | public/typing.js:84-86 | 25 characters over 30 seconds score 10 |
| TypingEngine.Current | public/typing.js:68 | the current item, or an empty word and meaning past the end of the list |
| TypingEngine.Render | public/typing.js:67-81 | `renderWord` redraws the spans, the meaning and the remaining counter, and changes nothing else |
| TypingEngine.Speak | public/typing.js:23-24 | an empty text is not spoken; any other text is appended to what was spoken |
| TypingEngine.Initial | public/typing.js:49-51 | all counters 0, clock unset, not waiting, no end screen, first word drawn with no cursor error, counter at the word total |
| TypingEngine.Unstarted | public/typing.js:103 | `!startedAt` holds exactly when no start time is set or the start time is 0 |
| TypingEngine.StartClock | public/typing.js:103-107 | a single-character key while the clock is unset starts it at `now` and speaks the current word when it is not empty; otherwise nothing changes |
| TypingEngine.Matches | public/typing.js:110-111 | a key matches only when it is one character; the expected character itself always matches; for a small letter its capital also matches, and for a capital its small letter; a character that is not an ASCII letter matches only itself |
| TypingEngine.OnKey | public/typing.js:101-122 | while waiting or ended, nothing changes; the word never changes; both counters rise by exactly 1 on an accepted key and neither moves otherwise; waiting starts exactly when an accepted key completes the word; the first single-character key starts the clock and speaks the word; an accepted key redraws the word with the cursor one further and no wrong mark; a key that is not one character, or arrives past the word's end, leaves the drawing as it was |
| TypingEngine.Finish | public/typing.js:82-94 | the end screen shows, `finishedAt` is `now`, and the score is `Wpm(correctChars, ElapsedMs(startedAt, now))` |
| TypingEngine.NextWord | public/typing.js:95-99 | the word index rises by 1, the cursor resets, waiting clears, and the clock is kept; at the word total `finish` runs now, so `finishedAt` is `now`, the score is `Wpm` over the elapsed time up to `now`, and the spans, meaning and counter stay as they were; before it, the next word is drawn with no wrong mark, with its meaning and the remaining count |
| TypingEngine.OnAdvance | public/typing.js:115-119 | the next word and then the speech of that word when it exists and is not empty; the clock is untouched; after the last word `finishedAt` is the firing time and the score is taken up to it, with the word display left as it was; otherwise the next word is drawn fresh |
| TypingEngine.InitialValid | public/typing.js:123 | the loaded page satisfies the invariant |
| TypingEngine.OnKeyValid | public/typing.js:101-122 | a key keeps the invariant: `correctChars` is the length of the finished words plus the cursor, the cursor never passes the word's end, waiting holds exactly at a completed non-empty word, and the end screen shows exactly after the last word |
| TypingEngine.OnAdvanceValid | public/typing.js:95-99 | the timer callback keeps the invariant |
| TypingEngine.RunValid | public/typing.js:101-122 | any sequence of keys and timer firings keeps the invariant |
| TypingEngine.EndedScore | public/typing.js:82-86 | at the end screen every word is typed, and the score is `Wpm` of the total length of all words |
| TypingEngine.WrongKey | public/typing.js:121 | a mismatch changes no counter and redraws with the cursor marked wrong |
| TypingEngine.EmptyWordStuck | public/typing.js:109-110 | an empty current word can never be completed: a key only touches the clock |
| TypingEngine.EmptyListNeverFinishes | public/typing.js:95-97 | with no words the end screen never shows, whatever events arrive |
| TypingEngine.TypeRest | public/typing.js:111-114 | typing the rest of a word accepts every key, counts each character once and leaves the word waiting for the timer |
| TypingEngine.WordAndAdvance | public/typing.js:113-119 | typing a word and letting its timer fire lands at the start of the next word, or at the end screen after the last |
| TypingEngine.CompleteFrom | public/typing.js:95-99 | typing every remaining word ends the session having counted every character and spoken every later word |
| TypingEngine.PlayThrough | public/typing.js:49-123 | a whole session over non-empty words ends with every character counted, every word spoken once in order, `finish` run at the time of the last timer, and the score over all characters up to then |
| TypingEngine.CatDog | public/typing.js:101-122 | typing "cat" and "dog" ends after 2 words with 6 correct characters |
| TypingEngine.AcceptKey | public/typing.js:103-114 | the expected character, pressed at any time, moves the cursor and the count by one, waits exactly at the word's end, and starts an unset clock at that time |
| TypingEngine.CatDogTimed | public/typing.js:82-122 | "cat" typed from 1000 ms and "dog" ending with its timer at 3500 ms: the clock started at 1000 ms, `finish` ran at 3500 ms, and 6 characters over 2500 ms score 29 |
| TypingPage.Session.constructor | public/typing.js:49-51 | the page starts in the `Initial` state and satisfies the invariant |
| TypingPage.Session.RenderWord | public/typing.js:67-81 | updates the fields to `Render` of the previous state |
| TypingPage.Session.SpeakWord | public/typing.js:23-24 | updates the fields to `Speak` of the previous state |
| TypingPage.Session.Finish | public/typing.js:82-94 | updates the fields to `Finish` of the previous state |
| TypingPage.Session.NextWord | public/typing.js:95-99 | updates the fields to `NextWord` of the previous state |
| TypingPage.Session.Keydown | public/typing.js:101-122 | updates the fields to `OnKey` of the previous state and keeps the invariant |
| TypingPage.Session.HandleKey | public/typing.js:102-121 | the listener's body updates the fields to `OnKey` of the previous state |
| TypingPage.Session.StartClock | public/typing.js:103-107 | updates the fields to `StartClock` of the previous state |
| TypingPage.Session.TimerFires | public/typing.js:115-119 | updates the fields to `OnAdvance` of the previous state and keeps the invariant |

## Left out

- Reading the word file and `JSON.parse` are not modelled. The parsed value is an input datatype, and a parse failure is its `SyntaxError` variant. JSON numbers are reals and play no part in the decisions.
- `readFileSync` of a served file is not modelled. A reply names the path it would read, and read errors are not modelled.
- Score history queries and inserts, the blog handlers, route registration and i18n are database or framework plumbing and are not part of this model.
- The random-comparator sort is an arbitrary permutation given as an argument. How likely each permutation is, given `Math.random`, is not modelled.
- The DOM is modelled only as the spans, meaning text, remaining counter, end-screen flag and score that the script writes. Styles, element lookups, the `char--*` markup and the score input are not modelled.
- Speech synthesis is modelled only as the list of words handed to `speakWord`. `initVoices`, the `voiceschanged` listener, the utterance settings and the text-to-speech toggle are not modelled: the toggle is assumed on, because it is a browser-side setting.
- The Date-formatting function at the end of the script is not modelled, because it depends on `Date` and the locale; only `pad2`, which it uses, is.
- The end screen's `(elapsedMs / 1000).toFixed(1)` is not modelled, because it is floating-point formatting.
- The `setTimeout` delay of 1000 ms is not modelled as time. The callback is a separate event, and no other event arrives while it is pending except keys, which are ignored.
- TypingDisplay.Wpm: the score is the real-number quotient rounded half up. The browser's `(c / 5) / (ms / 60000)` is a double, and `Math.round` of an inexact half can go down: 19 characters in 24000 ms give 9.499999999999998 and score 9 there, 10 here. IEEE-754 double rounding is not modelled.
- Text.LowerChar: models `toLowerCase` on ASCII letters only; the Unicode case mappings, including those that change a string's length, are not modelled.
- TypingEngine.OnKey: the browser counts UTF-16 code units where the model counts characters. This applies to `e.key.length` and to the word's `cur.word[currentCharIndex]` and `cur.word.length` (public/typing.js:108-113). For a word with a character outside the Basic Multilingual Plane, such as `"a😀"`, the browser expects a lone surrogate that no one-unit key equals, so the word can never be completed. The model completes it with the key `"😀"`.
- TypingEngine.PlayThrough: assumes time is not 0, because the script's `!startedAt` would restart the clock at a timestamp of 0.
- Voices.PickEnglishVoice: a voice with a missing `lang` is modelled as one with an empty `lang`.

## Findings

| source | as written | input that shows it | evidently intended | confidence | as-written member | corrected member |
|---|---|---|---|---|---|---|
| utils/public.ts:10 | `p.startsWith(base)` accepts any path whose text begins with `base`, including a sibling directory such as `…/public-old` | filename `../public-old/secret.txt`, sent as `..%2Fpublic-old%2Fsecret.txt` because the route parameter does not match `/`: it normalises to `<parent>/public-old/secret.txt`, which starts with `<parent>/public`. No route in index.ts registers this handler, so the flaw is latent as far as index.ts shows | serve only `base` itself or paths below `base + "/"` | medium, not executed | PublicFiles.SiblingPrefixAdmitted | PublicFiles.DecideContained |
