/**
 * `pickEnglishVoice`: the speech-synthesis voice used to pronounce words.
 * Among the voices whose language starts with `en` (any letter case) it
 * prefers the first whose name contains the earliest entry of a fixed
 * list of names; failing that the first English voice, failing that the
 * first voice of all.
 */
module Voices {
  import opened Wrappers
  import opened Text

  datatype Voice = Voice(name: string, lang: string)

  const PreferNames: seq<string> :=
    ["Google US English", "Samantha", "Alex", "Microsoft Aria", "Microsoft Zira"]

  /** `v.lang && v.lang.toLowerCase().startsWith('en')` */
  predicate IsEnglish(v: Voice): (english: bool)
    ensures english <==> |v.lang| >= 2 && v.lang[0] in "eE" && v.lang[1] in "nN"
  {
    v.lang != "" && StartsWith(Lower(v.lang), "en")
  }

  /** `voices.filter(IsEnglish)` */
  function EnglishVoices(voices: seq<Voice>): (byLang: seq<Voice>)
    ensures |byLang| <= |voices|
    ensures forall v :: v in byLang <==> v in voices && IsEnglish(v)
    ensures |byLang| > 0 <==> FirstEnglish(voices) < |voices|
    ensures |byLang| > 0 ==> byLang[0] == voices[FirstEnglish(voices)]
  {
    if voices == [] then []
    else if IsEnglish(voices[0]) then [voices[0]] + EnglishVoices(voices[1..])
    else EnglishVoices(voices[1..])
  }

  /** Filtering distributes over concatenation, so English voices keep their order. */
  lemma {:induction false} EnglishVoicesAppend(xs: seq<Voice>, ys: seq<Voice>)
    ensures EnglishVoices(xs + ys) == EnglishVoices(xs) + EnglishVoices(ys)
    decreases |xs|
  {
    if xs == [] {
      assert xs + ys == ys;
    } else {
      assert (xs + ys)[1..] == xs[1..] + ys;
      EnglishVoicesAppend(xs[1..], ys);
    }
  }

  /** A single voice is kept exactly when it is English. */
  lemma EnglishVoicesSingle(v: Voice)
    ensures EnglishVoices([v]) == if IsEnglish(v) then [v] else []
  {
    assert [v][1..] == [];
  }

  /** Position of the first English voice, or |voices| when there is none. */
  function FirstEnglish(voices: seq<Voice>): (k: nat)
    ensures k <= |voices|
    ensures k < |voices| ==> IsEnglish(voices[k])
    ensures forall j :: 0 <= j < k ==> !IsEnglish(voices[j])
  {
    if voices == [] then 0
    else if IsEnglish(voices[0]) then 0
    else 1 + FirstEnglish(voices[1..])
  }

  /** `byLang.find(v => v.name.includes(name))`, as a position. */
  function FindNamed(byLang: seq<Voice>, name: string): (k: Option<nat>)
    ensures k.Some? ==> k.value < |byLang| && Includes(byLang[k.value].name, name)
    ensures k.Some? ==> forall j :: 0 <= j < k.value ==> !Includes(byLang[j].name, name)
    ensures k.None? ==> forall j :: 0 <= j < |byLang| ==> !Includes(byLang[j].name, name)
  {
    if byLang == [] then None
    else if Includes(byLang[0].name, name) then Some(0)
    else
      var rest := FindNamed(byLang[1..], name);
      if rest.Some? then Some(rest.value + 1) else None
  }

  /** The loop over the preferred names: the first name that finds a voice decides. */
  function PreferredHit(byLang: seq<Voice>, names: seq<string>): (hit: Option<Voice>)
    ensures hit.None? <==> forall k :: 0 <= k < |names| ==> FindNamed(byLang, names[k]).None?
    ensures hit.Some? ==> exists k :: 0 <= k < |names| && PreferredAt(byLang, names, k, hit.value)
  {
    if names == [] then None
    else
      var found := FindNamed(byLang, names[0]);
      if found.Some? then
        assert PreferredAt(byLang, names, 0, byLang[found.value]);
        Some(byLang[found.value])
      else
        var hit := PreferredHit(byLang, names[1..]);
        if hit.Some? then
          var k :| 0 <= k < |names[1..]| && PreferredAt(byLang, names[1..], k, hit.value);
          PreferredShift(byLang, names, k, hit.value);
          hit
        else
          assert forall k :: 1 <= k < |names| ==> names[k] == names[1..][k - 1];
          hit
  }

  /** A hit of the later names is a hit of all names when the first name finds nothing. */
  lemma PreferredShift(byLang: seq<Voice>, names: seq<string>, k: nat, v: Voice)
    requires |names| > 0 && k < |names| - 1 && FindNamed(byLang, names[0]).None?
    requires PreferredAt(byLang, names[1..], k, v)
    ensures PreferredAt(byLang, names, k + 1, v)
  {
    forall j | 0 <= j < k + 1
      ensures FindNamed(byLang, names[j]).None?
    {
      if j > 0 {
        assert names[j] == names[1..][j - 1];
      }
    }
    assert names[k + 1] == names[1..][k];
  }

  /**
   * `v` is what the `k`-th preferred name finds, and no earlier name
   * finds anything.
   */
  predicate PreferredAt(byLang: seq<Voice>, names: seq<string>, k: nat, v: Voice)
    requires k < |names|
  {
    && (forall j :: 0 <= j < k ==> FindNamed(byLang, names[j]).None?)
    && FindNamed(byLang, names[k]).Some?
    && v == byLang[FindNamed(byLang, names[k]).value]
  }

  /** `pickEnglishVoice(voices)`; None stands for `null`. */
  function PickEnglishVoice(voices: seq<Voice>): (r: Option<Voice>)
    ensures r.None? <==> voices == []
    ensures r.Some? ==> r.value in voices
    ensures (exists v :: v in voices && IsEnglish(v)) ==> r.Some? && IsEnglish(r.value)
  {
    if voices == [] then None
    else
      var byLang := EnglishVoices(voices);
      var hit := PreferredHit(byLang, PreferNames);
      if hit.Some? then hit
      else if byLang != [] then Some(byLang[0])
      else Some(voices[0])
  }

  /**
   * The choice in full: the voice found by the earliest preferred name
   * that finds one; without any, the first English voice; without any
   * English voice, the first voice.
   */
  lemma PickEnglishVoiceChoice(voices: seq<Voice>)
    requires voices != []
    ensures var byLang := EnglishVoices(voices);
      var r := PickEnglishVoice(voices).value;
      && ((exists k :: 0 <= k < |PreferNames| && FindNamed(byLang, PreferNames[k]).Some?) ==>
            exists k :: 0 <= k < |PreferNames| && PreferredAt(byLang, PreferNames, k, r))
      && ((forall k :: 0 <= k < |PreferNames| ==> FindNamed(byLang, PreferNames[k]).None?) ==>
            r == voices[if byLang != [] then FirstEnglish(voices) else 0])
  {
    var byLang := EnglishVoices(voices);
    var hit := PreferredHit(byLang, PreferNames);
    assert PickEnglishVoice(voices) == if hit.Some? then hit else if byLang != [] then Some(byLang[0]) else Some(voices[0]);
  }
}
