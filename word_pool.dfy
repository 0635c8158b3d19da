/**
 * Sanitisation of the parsed word list (`TypingHandler.get`): keep the
 * entries that are truthy and have a string `word`, copy the word, and
 * default a missing or non-string `meaning` to the empty string.
 */
module WordPool {
  import opened Wrappers
  import opened Json

  datatype WordItem = WordItem(word: string, meaning: string)

  /** The `filter` callback `x && typeof x.word === 'string'`. */
  predicate Keep(x: Value): (keep: bool)
    ensures keep <==> x.Object? && "word" in x.props && x.props["word"].Str?
  {
    Truthy(x) && StringProperty(x, "word").Some?
  }

  /** The `map` callback building `{ word, meaning }` from a kept entry. */
  function Normalise(x: Value): (w: WordItem)
    requires Keep(x)
    ensures x.Object? && x.props["word"] == Str(w.word)
    ensures "meaning" in x.props && x.props["meaning"].Str? ==> x.props["meaning"] == Str(w.meaning)
    ensures !("meaning" in x.props && x.props["meaning"].Str?) ==> w.meaning == ""
  {
    var meaning := StringProperty(x, "meaning");
    WordItem(StringProperty(x, "word").value, if meaning.Some? then meaning.value else "")
  }

  /** `parsed.filter(Keep)`: the kept entries, in input order. */
  function Filter(xs: seq<Value>): (kept: seq<Value>)
    ensures |kept| <= |xs|
    ensures forall x :: x in kept <==> x in xs && Keep(x)
  {
    if xs == [] then []
    else (if Keep(xs[0]) then [xs[0]] else []) + Filter(xs[1..])
  }

  /** `.map(Normalise)` over the filtered entries. */
  function MapNormalise(kept: seq<Value>): (ws: seq<WordItem>)
    requires forall x :: x in kept ==> Keep(x)
    ensures |ws| == |kept|
    ensures forall i :: 0 <= i < |kept| ==> ws[i] == Normalise(kept[i])
  {
    seq(|kept|, i requires 0 <= i < |kept| => Normalise(kept[i]))
  }

  /** The whole sanitiser: a parse failure or a non-array yields the empty list. */
  function Load(parsed: Parsed): (words: seq<WordItem>)
    ensures !(parsed.Parsed? && parsed.value.Array?) ==> words == []
    ensures parsed.Parsed? && parsed.value.Array? ==>
      |words| == |Filter(parsed.value.elems)| <= |parsed.value.elems| &&
      forall i :: 0 <= i < |words| ==>
        Filter(parsed.value.elems)[i] in parsed.value.elems &&
        words[i] == Normalise(Filter(parsed.value.elems)[i])
  {
    if parsed.Parsed? && parsed.value.Array? then MapNormalise(Filter(parsed.value.elems)) else []
  }

  /** Filtering keeps relative order: it distributes over concatenation. */
  lemma {:induction false} FilterAppend(xs: seq<Value>, ys: seq<Value>)
    ensures Filter(xs + ys) == Filter(xs) + Filter(ys)
  {
    if xs == [] {
      assert xs + ys == ys;
    } else {
      assert (xs + ys)[1..] == xs[1..] + ys;
      FilterAppend(xs[1..], ys);
    }
  }

  /** A list whose every entry passes the filter is left as it is. */
  lemma {:induction false} FilterKeepsAll(xs: seq<Value>)
    requires forall x :: x in xs ==> Keep(x)
    ensures Filter(xs) == xs
  {
    if xs != [] {
      FilterKeepsAll(xs[1..]);
    }
  }

  /** `JSON.stringify` of one item, as the handler sends it to the page. */
  function Encode(w: WordItem): Value {
    Object(map["word" := Str(w.word), "meaning" := Str(w.meaning)])
  }

  function EncodeAll(ws: seq<WordItem>): (vs: seq<Value>)
    ensures |vs| == |ws|
    ensures forall i :: 0 <= i < |ws| ==> vs[i] == Encode(ws[i])
  {
    seq(|ws|, i requires 0 <= i < |ws| => Encode(ws[i]))
  }

  /**
   * Sanitised words survive a stringify/parse cycle: sanitising the
   * encoded list gives the same words back, including empty ones.
   */
  lemma LoadEncode(ws: seq<WordItem>)
    ensures Load(Parsed(Array(EncodeAll(ws)))) == ws
  {
    var vs := EncodeAll(ws);
    forall x | x in vs ensures Keep(x) {
      var i :| 0 <= i < |vs| && vs[i] == x;
      assert x == Encode(ws[i]);
    }
    FilterKeepsAll(vs);
  }

  /** The sanitiser is idempotent on its own output. */
  lemma LoadIdempotent(parsed: Parsed)
    ensures Load(Parsed(Array(EncodeAll(Load(parsed))))) == Load(parsed)
  {
    LoadEncode(Load(parsed));
  }

  /** An entry whose word is the empty string is not rejected. */
  lemma EmptyWordKept(meaning: Value)
    ensures Load(Parsed(Array([Object(map["word" := Str(""), "meaning" := meaning])]))) ==
      [WordItem("", if meaning.Str? then meaning.s else "")]
  {
    var x := Object(map["word" := Str(""), "meaning" := meaning]);
    assert Keep(x);
    assert Filter([x]) == [x] by { assert [x][1..] == []; }
  }
}
