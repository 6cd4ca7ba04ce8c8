/** `Handler.formatTextResults`: one line per kept label, pairing the i-th
    name with the i-th label's confidence. */
module Format {
  import opened Labels

  /** What a template literal prints for `names[i]`: the name, or "undefined"
      when the array has no element `i`. */
  function NameAt(names: seq<string>, i: nat): (name: string)
  {
    if i < |names| then names[i] else "undefined"
  }

  /** `` `${confidenceText}% de chances de ser ${name}\n` ``. */
  function Line(confidenceText: string, name: string): (line: string)
  {
    confidenceText + "% de chances de ser " + name + "\n"
  }

  /** The lines for `items`, built up from the last one backwards; `fmt`
      stands for `Number.prototype.toFixed(2)`. */
  function FormattedLines(names: seq<string>, items: seq<Label>, fmt: real -> string): (lines: seq<string>)
    decreases |items|
    ensures |lines| == |items|
  {
    if items == [] then []
    else
      var n := |items| - 1;
      FormattedLines(names, items[..n], fmt) + [Line(fmt(items[n].confidence), NameAt(names, n))]
  }

  /** Line `i` pairs item `i`'s confidence with `names[i]`, whatever the
      number of names. */
  lemma {:induction false} FormattedLinesAt(names: seq<string>, items: seq<Label>, fmt: real -> string)
    ensures forall i :: 0 <= i < |items| ==>
              FormattedLines(names, items, fmt)[i] == Line(fmt(items[i].confidence), NameAt(names, i))
    decreases |items|
  {
    if items != [] {
      var n := |items| - 1;
      FormattedLinesAt(names, items[..n], fmt);
      assert forall i :: 0 <= i < n ==> items[..n][i] == items[i];
    }
  }

  /** Names beyond the number of items are never read. */
  lemma ExtraNamesIgnored(names: seq<string>, extra: seq<string>, items: seq<Label>, fmt: real -> string)
    requires |items| <= |names|
    ensures FormattedLines(names + extra, items, fmt) == FormattedLines(names, items, fmt)
  {
    FormattedLinesAt(names, items, fmt);
    FormattedLinesAt(names + extra, items, fmt);
    assert forall i :: 0 <= i < |items| ==> NameAt(names + extra, i) == NameAt(names, i);
  }

  /** An item without a matching name is reported as "undefined". */
  lemma MissingNameIsUndefined(names: seq<string>, items: seq<Label>, fmt: real -> string, i: nat)
    requires |names| <= i < |items|
    ensures FormattedLines(names, items, fmt)[i] ==
            fmt(items[i].confidence) + "% de chances de ser undefined\n"
  {
    FormattedLinesAt(names, items, fmt);
  }

  /** `formatTextResults(names, items)`: push one line per index of `items`. */
  method FormatTextResults(names: seq<string>, items: seq<Label>, fmt: real -> string)
    returns (finalText: seq<string>)
    ensures finalText == FormattedLines(names, items, fmt)
    ensures |finalText| == |items|
    ensures forall i :: 0 <= i < |items| ==> finalText[i] == Line(fmt(items[i].confidence), NameAt(names, i))
  {
    finalText := [];
    for index := 0 to |items|
      invariant finalText == FormattedLines(names, items[..index], fmt)
    {
      var name := NameAt(names, index);
      var confidence := items[index].confidence;
      finalText := finalText + [Line(fmt(confidence), name)];
      assert items[..index + 1][..index] == items[..index];
    }
    assert items[..|items|] == items;
    FormattedLinesAt(names, items, fmt);
  }
}
