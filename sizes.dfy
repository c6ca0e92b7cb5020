/**
 * Canvas-size labels of the form "WxH" (`"16x16"`, `"32x16"`, ...), read with
 * `map(int, s.split("x"))` for the single-canvas size and with
 * `int(s.split("x")[0])` for the split tile size.
 */
module Sizes {
  import opened Wrappers
  import opened Text

  /** The `ValueError`s that `w, h = map(int, s.split("x"))` can raise. */
  datatype SizeError =
    | TooFewValues                     // "not enough values to unpack": one part only
    | TooManyValues                    // "too many values to unpack": a third value was produced
    | NotAnInteger(index: nat, part: string)  // `int(part)` raised on the part at this position

  /**
   * `w, h = map(int, s.split("x"))`. The unpacking pulls values from the lazy
   * `map` one at a time: it converts the first part, then the second (or finds
   * there is none), then a third when there is one, and only then objects to
   * the count. So a part among the first three that is not an integer is
   * reported before a wrong number of parts.
   */
  function ParseSize(s: string): (r: Result<(int, int), SizeError>)
    ensures var parts := Split(s, 'x');
      && (r.Ok? <==> |parts| == 2 && ParseInt(parts[0]).Some? && ParseInt(parts[1]).Some?)
      && (r.Ok? ==> r.value == (ParseInt(parts[0]).value, ParseInt(parts[1]).value))
      && (r == Err(TooFewValues) <==> |parts| == 1 && ParseInt(parts[0]).Some?)
      && (r == Err(TooManyValues) <==>
            |parts| > 2 && ParseInt(parts[0]).Some? && ParseInt(parts[1]).Some? && ParseInt(parts[2]).Some?)
      && (r.Err? && r.error.NotAnInteger? ==>
            var k := r.error.index;
            && k < |parts| && k < 3 && r.error.part == parts[k] && ParseInt(parts[k]).None?
            && (k > 0 ==> ParseInt(parts[0]).Some?) && (k > 1 ==> ParseInt(parts[1]).Some?))
  {
    var parts := Split(s, 'x');
    var first := ParseInt(parts[0]);
    if first.None? then Err(NotAnInteger(0, parts[0]))
    else if |parts| == 1 then Err(TooFewValues)
    else
      var second := ParseInt(parts[1]);
      if second.None? then Err(NotAnInteger(1, parts[1]))
      else if |parts| == 2 then Ok((first.value, second.value))
      else if ParseInt(parts[2]).None? then Err(NotAnInteger(2, parts[2]))
      else Err(TooManyValues)
  }

  /** A first part that is not an integer raises in `int`, before the count is looked at. */
  lemma ParseSizeBadFirst()
    ensures ParseSize("abc") == Err(NotAnInteger(0, "abc"))
  {
    SplitNoSeparator("abc", 'x');
    StripTrimmed("abc");
    assert !IsDigit("abc"[0]);
  }

  /** Three separator-free strings joined by `x` split back into those three. */
  lemma SplitThree(a: string, b: string, c: string)
    requires 'x' !in a && 'x' !in b && 'x' !in c
    ensures Split(a + "x" + b + "x" + c, 'x') == [a, b, c]
  {
    var rest := b + ['x'] + c;
    assert a + "x" + b + "x" + c == a + ['x'] + rest;
    SplitNoSeparator(c, 'x');
    SplitAfterFirst(b, c, 'x');
    SplitAfterFirst(a, rest, 'x');
  }

  /** Splitting `FormatSize(w, h) + "x" + last` gives the two numbers' digits and `last`. */
  lemma SplitLabelAndMore(w: nat, h: nat, last: string)
    requires 'x' !in last
    ensures Split(FormatSize(w, h) + "x" + last, 'x') == [NatToString(w), NatToString(h), last]
  {
    var a, b := NatToString(w), NatToString(h);
    assert 'x' !in a && 'x' !in b by {
      assert forall k :: 0 <= k < |a| ==> IsDigit(a[k]);
      assert forall k :: 0 <= k < |b| ==> IsDigit(b[k]);
    }
    SplitThree(a, b, last);
  }

  /** A third part that is not an integer raises in `int`, before the unpacking objects to three values. */
  lemma ParseSizeBadThird(w: nat, h: nat, last: string)
    requires 'x' !in last && ParseInt(last).None?
    ensures ParseSize(FormatSize(w, h) + "x" + last) == Err(NotAnInteger(2, last))
  {
    SplitLabelAndMore(w, h, last);
    ParseIntOfNat(w);
    ParseIntOfNat(h);
  }

  /** A label with a third integer has too many values to unpack. */
  lemma ParseSizeTooMany(w: nat, h: nat, d: nat)
    ensures ParseSize(FormatSize(w, h) + "x" + NatToString(d)) == Err(TooManyValues)
  {
    var last := NatToString(d);
    assert 'x' !in last by { assert forall k :: 0 <= k < |last| ==> IsDigit(last[k]); }
    SplitLabelAndMore(w, h, last);
    ParseIntOfNat(w);
    ParseIntOfNat(h);
    ParseIntOfNat(d);
  }

  /** A single integer is too few values to unpack. */
  lemma ParseSizeTooFew(w: nat)
    ensures ParseSize(NatToString(w)) == Err(TooFewValues)
  {
    var a := NatToString(w);
    assert 'x' !in a by { assert forall k :: 0 <= k < |a| ==> IsDigit(a[k]); }
    SplitNoSeparator(a, 'x');
    ParseIntOfNat(w);
  }

  /** `int(s.split("x")[0])`: the width of a label. */
  function ParseTileSize(s: string): (r: Option<int>)
    ensures ParseSize(s).Ok? ==> r == Some(ParseSize(s).value.0)
  {
    ParseInt(Split(s, 'x')[0])
  }

  /**
   * The size a single-canvas export resizes to: the label must read as two
   * integers, and PIL refuses to resize to a width or height below one.
   */
  function CanvasDims(text: string): (r: Option<(nat, nat)>)
    ensures r.Some? <==> ParseSize(text).Ok? && ParseSize(text).value.0 >= 1 && ParseSize(text).value.1 >= 1
    ensures r.Some? ==> r.value.0 >= 1 && r.value.1 >= 1 && ParseSize(text) == Ok((r.value.0 as int, r.value.1 as int))
  {
    match ParseSize(text)
    case Ok((w, h)) => if w >= 1 && h >= 1 then Some((w as nat, h as nat)) else None
    case Err(_) => None
  }

  /** The label the window shows for a size. */
  function FormatSize(w: nat, h: nat): string {
    NatToString(w) + "x" + NatToString(h)
  }

  /** Reading a label back gives the size it was written from. */
  lemma ParseFormatSize(w: nat, h: nat)
    ensures ParseSize(FormatSize(w, h)) == Ok((w, h))
    ensures ParseTileSize(FormatSize(w, h)) == Some(w)
  {
    var a, b := NatToString(w), NatToString(h);
    assert 'x' !in a && 'x' !in b by {
      assert forall k :: 0 <= k < |a| ==> IsDigit(a[k]);
      assert forall k :: 0 <= k < |b| ==> IsDigit(b[k]);
    }
    assert FormatSize(w, h) == a + ['x'] + b;
    SplitAfterFirst(a, b, 'x');
    SplitNoSeparator(b, 'x');
    ParseIntOfNat(w);
    ParseIntOfNat(h);
  }

  /** Every label written from a positive size is a size a single canvas can be resized to. */
  lemma CanvasDimsOfLabel(w: nat, h: nat)
    requires w >= 1 && h >= 1
    ensures CanvasDims(FormatSize(w, h)) == Some((w, h))
  {
    ParseFormatSize(w, h);
  }

  /** The four single-canvas labels and the two tile-size labels of the window. */
  lemma WindowLabels()
    ensures ParseSize("16x16") == Ok((16, 16)) && ParseSize("32x16") == Ok((32, 16))
    ensures ParseSize("16x32") == Ok((16, 32)) && ParseSize("32x32") == Ok((32, 32))
    ensures ParseTileSize("16x16") == Some(16) && ParseTileSize("32x32") == Some(32)
  {
    assert FormatSize(16, 16) == "16x16" && FormatSize(32, 16) == "32x16";
    assert FormatSize(16, 32) == "16x32" && FormatSize(32, 32) == "32x32";
    ParseFormatSize(16, 16);
    ParseFormatSize(32, 16);
    ParseFormatSize(16, 32);
    ParseFormatSize(32, 32);
  }
}
