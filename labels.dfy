/** `Handler.detectImageLabels`: the label-detection call and what the handler
    does with its answer, namely keep the labels detected with more than 80%
    confidence, then join their names with " and ". */
module Labels {
  import opened Wrappers
  import JsStrings

  /** The image bytes handed to the vision service. */
  type Bytes = seq<bv8>

  /** One entry of the service's `Labels` list; only `Name` and `Confidence`
      are read. */
  datatype Label = Label(name: string, confidence: real)

  /** What `detectImageLabels` resolves to: `{ items, names }`. */
  datatype Detection = Detection(items: seq<Label>, names: string)

  /** A label is kept when its confidence is strictly above this. */
  const MinConfidence: real := 80.0

  /** The text written between two names. */
  const NameSeparator: string := " and "

  predicate Kept(l: Label)
  {
    l.confidence > MinConfidence
  }

  /** `labels.filter(({ Confidence }) => Confidence > 80)`. */
  function Confident(labels: seq<Label>): (items: seq<Label>)
    decreases |labels|
    ensures |items| <= |labels|
    ensures forall l :: l in items <==> l in labels && Kept(l)
    ensures forall l :: multiset(items)[l] == if Kept(l) then multiset(labels)[l] else 0
  {
    if labels == [] then []
    else
      assert labels == [labels[0]] + labels[1..];
      if Kept(labels[0]) then [labels[0]] + Confident(labels[1..])
      else Confident(labels[1..])
  }

  /** `xs` is `ys` with some elements left out and the rest in their order. */
  predicate Subsequence<T(==)>(xs: seq<T>, ys: seq<T>)
    decreases |ys|
  {
    if xs == [] then true
    else if ys == [] then false
    else (xs[0] == ys[0] && Subsequence(xs[1..], ys[1..])) || Subsequence(xs, ys[1..])
  }

  /** The kept labels keep their relative order. */
  lemma {:induction false} ConfidentIsSubsequence(labels: seq<Label>)
    ensures Subsequence(Confident(labels), labels)
    decreases |labels|
  {
    if labels != [] {
      ConfidentIsSubsequence(labels[1..]);
      if Kept(labels[0]) {
        assert ([labels[0]] + Confident(labels[1..]))[1..] == Confident(labels[1..]);
      }
    }
  }

  /** Filtering a concatenation filters each part and keeps them in order. */
  lemma {:induction false} ConfidentAppend(a: seq<Label>, b: seq<Label>)
    ensures Confident(a + b) == Confident(a) + Confident(b)
    decreases |a|
  {
    if a == [] {
      assert a + b == b;
    } else {
      assert (a + b)[0] == a[0];
      assert (a + b)[1..] == a[1..] + b;
      ConfidentAppend(a[1..], b);
    }
  }

  /** The kept labels' names, in order: `items.map(({ Name }) => Name)`. */
  function NameList(items: seq<Label>): (names: seq<string>)
    ensures |names| == |items|
    ensures forall k :: 0 <= k < |items| ==> names[k] == items[k].name
  {
    seq(|items|, k requires 0 <= k < |items| => items[k].name)
  }

  /** `items.map(({ Name }) => Name).join(" and ")`. */
  function Names(items: seq<Label>): (names: string)
  {
    JsStrings.Join(NameList(items), NameSeparator)
  }

  /** Nothing kept gives the empty string; one kept label gives just its name;
      a further label adds " and " and its name. */
  lemma {:induction false} NamesShape(items: seq<Label>, l: Label)
    ensures Names([]) == ""
    ensures Names([l]) == l.name
    ensures items != [] ==> Names(items + [l]) == Names(items) + NameSeparator + l.name
  {
    if items != [] {
      assert NameList(items + [l]) == NameList(items) + [l.name];
      JsStrings.JoinSnoc(NameList(items), l.name, NameSeparator);
    }
  }

  /** Were the translation the identity, splitting the joined names on " and "
      would give back one name per kept label, provided no name lets " and "
      straddle its end (a label such as "Fish and Chips" breaks this). */
  lemma NamesSplitBack(items: seq<Label>)
    requires items != []
    requires forall k :: 0 <= k < |items| ==> JsStrings.Separable(items[k].name, NameSeparator)
    ensures JsStrings.Split(Names(items), NameSeparator) == NameList(items)
    ensures |JsStrings.Split(Names(items), NameSeparator)| == |items|
  {
    JsStrings.SplitJoin(NameList(items), NameSeparator);
  }

  /** With nothing kept, the joined names are "" and still split into one
      (empty) piece, so the pieces outnumber the kept labels. */
  lemma NoLabelsSplitIntoOnePiece(sep: string)
    requires |sep| > 0
    ensures JsStrings.Split(Names([]), sep) == [""]
  {
    assert JsStrings.IndexOf("", sep, 0).None?;
  }

  /** A name containing " and " splits into extra pieces even without any
      translation: two kept labels, three pieces. */
  lemma DelimiterInsideName()
    ensures var items := [Label("Fish and Chips", 90.0), Label("Cat", 85.0)];
            JsStrings.Split(Names(items), NameSeparator) == ["Fish", "Chips", "Cat"]
  {
    var items := [Label("Fish and Chips", 90.0), Label("Cat", 85.0)];
    var sep := NameSeparator;
    assert NameList(items) == ["Fish and Chips", "Cat"];
    var s := Names(items);
    assert s == "Fish and Chips" + sep + "Cat";
    assert "Fish and Chips" == "Fish" + sep + "Chips";
    var tail := "Chips" + sep + "Cat";
    assert s == "Fish" + sep + tail;
    FreeOfSpaces("Fish");
    FreeOfSpaces("Chips");
    FreeOfSpaces("Cat");
    JsStrings.SplitAfterPiece("Fish", sep, tail);
    JsStrings.SplitAfterPiece("Chips", sep, "Cat");
    JsStrings.SeparableIsFree("Cat", sep);
    assert JsStrings.Split("Cat", sep) == ["Cat"];
  }

  /** A word without spaces cannot let " and " straddle its end. */
  lemma FreeOfSpaces(w: string)
    requires forall k :: 0 <= k < |w| ==> w[k] != ' '
    ensures JsStrings.Separable(w, NameSeparator)
  {
    forall j | 0 <= j < |w| ensures !JsStrings.MatchAt(w + NameSeparator, NameSeparator, j) {
      assert (w + NameSeparator)[j] == w[j];
    }
  }

  /** The post-processing in `detectImageLabels`, after the service call
      `detect` (`rekoSvc.detectLabels({ Image: { Bytes: buffer } })`). */
  method DetectImageLabels(detect: Bytes -> Result<seq<Label>>, buffer: Bytes)
    returns (r: Result<Detection>)
    ensures detect(buffer).Err? ==> r == Err(detect(buffer).message)
    ensures detect(buffer).Ok? ==> r.Ok?
    ensures r.Ok? ==>
      && Subsequence(r.value.items, detect(buffer).value)
      && (forall l :: l in r.value.items <==> l in detect(buffer).value && Kept(l))
      && (forall l :: multiset(r.value.items)[l] ==
            if Kept(l) then multiset(detect(buffer).value)[l] else 0)
      && r.value.items == Confident(detect(buffer).value)
      && r.value.names == Names(r.value.items)
  {
    var result := detect(buffer);
    if result.Err? {
      return Err(result.message);
    }
    var items := Confident(result.value);
    var names := Names(items);
    ConfidentIsSubsequence(result.value);
    return Ok(Detection(items, names));
  }
}
