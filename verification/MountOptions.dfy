/** `parseMountOptions`: the comma-separated options of a mount. */
module MountOptions {
  import opened Streams

  type Options = map<string, string>

  /** What one token does: the text up to the first `=` is the key and the rest of the
      line, which may be missing, is the value.  An empty token does nothing. */
  function ApplyToken(m: Options, token: string): Options {
    match GetLine(token, '=')
    case None => m
    case Some(Read(key, rest)) =>
      m[key := match GetLine(rest, '\n') case None => "" case Some(line) => line.value]
  }

  /** The tokens in order, so that the last one for a key wins. */
  function Fold(tokens: seq<string>): Options {
    if tokens == [] then map[] else ApplyToken(Fold(tokens[..|tokens| - 1]), tokens[|tokens| - 1])
  }

  function OptionsOf(input: string): Options {
    Fold(Split(input, ','))
  }

  lemma {:induction false} FoldOneMore(tokens: seq<string>, token: string)
    ensures Fold(tokens + [token]) == ApplyToken(Fold(tokens), token)
  {
    assert (tokens + [token])[..|tokens|] == tokens;
  }

  method ParseMountOptions(input: string) returns (ret: Options)
    ensures ret == OptionsOf(input)
  {
    ret := map[];
    var iss := new StringStream(input);
    ghost var done: seq<string> := [];
    var token := iss.Line(',');
    while !iss.failed
      invariant fresh(iss) && ret == Fold(done)
      invariant iss.failed ==> Split(input, ',') == done
      invariant !iss.failed ==> Split(input, ',') == done + ([token] + Split(iss.rest, ','))
      decreases !iss.failed, |iss.rest|
    {
      FoldOneMore(done, token);
      Regroup(done, [token], Split(iss.rest, ','));
      done := done + [token];
      ret := ParseToken(ret, token);
      token := iss.Line(',');
    }
  }

  /** The body of the loop over the tokens. */
  method ParseToken(options: Options, token: string) returns (ret: Options)
    ensures ret == ApplyToken(options, token)
  {
    ret := options;
    var tokenStream := new StringStream(token);
    var key := tokenStream.Line('=');
    if !tokenStream.failed {
      var value := tokenStream.Line('\n');
      ret := ret[key := value];
    }
  }

  // ---------------------------------------------------------------------------
  // Printing options and reading them back
  // ---------------------------------------------------------------------------

  /** An option as it is written: `key=value`, or the bare key for an empty value. */
  datatype Item = Item(key: string, value: string, bare: bool) {
    predicate Legal() {
      && ',' !in key && '=' !in key && ',' !in value && '\n' !in value
      && (bare ==> key != "" && value == "")
    }

    function Text(): string {
      if bare then key else key + "=" + value
    }
  }

  predicate AllLegal(items: seq<Item>) {
    forall k :: 0 <= k < |items| ==> items[k].Legal()
  }

  function Texts(items: seq<Item>): (texts: seq<string>)
    ensures |texts| == |items| && forall k :: 0 <= k < |items| ==> texts[k] == items[k].Text()
  {
    if items == [] then [] else Texts(items[..|items| - 1]) + [items[|items| - 1].Text()]
  }

  function PrintOptions(items: seq<Item>): string {
    Join(Texts(items), ',')
  }

  /** The value that a list of options gives to a key: that of its last occurrence. */
  function LastValue(items: seq<Item>, key: string): Option<string> {
    if items == [] then None
    else if items[|items| - 1].key == key then Some(items[|items| - 1].value)
    else LastValue(items[..|items| - 1], key)
  }

  lemma {:induction false} ItemToken(m: Options, item: Item)
    requires item.Legal()
    ensures item.Text() != "" && ',' !in item.Text()
    ensures ApplyToken(m, item.Text()) == m[item.key := item.value]
  {
    if !item.bare {
      var text, rest := item.Text(), ['='] + item.value;
      assert text == item.key + rest;
      SpanOfPrefix(item.key, rest, Not('='));
      assert text[|item.key| + 1..] == item.value;
      assert GetLine(text, '=') == Some(Read(item.key, item.value));
    }
  }

  lemma {:induction false} FoldTexts(items: seq<Item>, key: string)
    requires AllLegal(items)
    ensures var m := Fold(Texts(items));
            match LastValue(items, key)
            case None => key !in m
            case Some(value) => key in m && m[key] == value
    decreases |items|
  {
    if items != [] {
      var front, last := items[..|items| - 1], items[|items| - 1];
      FoldTexts(front, key);
      assert Texts(items)[..|items| - 1] == Texts(front);
      ItemToken(Fold(Texts(front)), last);
    }
  }

  /** Printed options read back as a map in which the last occurrence of a key wins. */
  lemma {:induction false} PrintedOptionsParse(items: seq<Item>, key: string)
    requires AllLegal(items)
    ensures var m := OptionsOf(PrintOptions(items));
            match LastValue(items, key)
            case None => key !in m
            case Some(value) => key in m && m[key] == value
  {
    forall k | 0 <= k < |items|
      ensures Texts(items)[k] != "" && ',' !in Texts(items)[k]
    {
      ItemToken(map[], items[k]);
    }
    SplitJoined(Texts(items), ',');
    FoldTexts(items, key);
  }

  /** `items` lists the options of `m`, each once, in any order and either style. */
  ghost predicate Lists(items: seq<Item>, m: Options) {
    && AllLegal(items)
    && (forall j, k :: 0 <= j < k < |items| ==> items[j].key != items[k].key)
    && (forall k :: 0 <= k < |items| ==> items[k].key in m && m[items[k].key] == items[k].value)
    && (forall key :: key in m ==> exists k :: 0 <= k < |items| && items[k].key == key)
  }

  lemma {:induction false} LastValueOf(items: seq<Item>, key: string)
    ensures LastValue(items, key).None? ==> forall k :: 0 <= k < |items| ==> items[k].key != key
    ensures LastValue(items, key).Some? ==>
              exists k :: 0 <= k < |items| && items[k].key == key && items[k].value == LastValue(items, key).value
    decreases |items|
  {
    if items != [] {
      LastValueOf(items[..|items| - 1], key);
    }
  }

  /** Printing a map in any order and parsing it gives the same map. */
  lemma {:induction false} OptionsRoundTrip(m: Options, items: seq<Item>)
    requires Lists(items, m)
    ensures OptionsOf(PrintOptions(items)) == m
  {
    var parsed := OptionsOf(PrintOptions(items));
    forall key
      ensures (key in parsed <==> key in m) && (key in m ==> parsed[key] == m[key])
    {
      PrintedOptionsParse(items, key);
      LastValueOf(items, key);
    }
  }
}
