/**
 * The export's title and author, taken from the two text fields, and the
 * file names derived from them.
 */
module Names {
  import opened Text

  /**
   * The title: the stripped title field, `"Untitled"` when that is empty,
   * with every space turned into `_`.
   */
  function TitleOf(text: string): (title: string)
    ensures title != [] && ' ' !in title
  {
    var t := Strip(text);
    var r := ReplaceChar(if t == [] then "Untitled" else t, ' ', '_');
    ReplaceCharSpec(if t == [] then "Untitled" else t, ' ', '_');
    r
  }

  /** The author: the stripped author field, or `"Player"` when that is empty. */
  function AuthorOf(text: string): (author: string)
    ensures author != []
  {
    var a := Strip(text);
    if a == [] then "Player" else a
  }

  /**
   * The title is `"Untitled"` exactly when the field holds only whitespace;
   * otherwise it is the stripped field character for character, spaces
   * replaced by underscores (other whitespace inside is kept).
   */
  lemma TitleSpec(text: string)
    ensures AllSpace(text) ==> TitleOf(text) == "Untitled"
    ensures !AllSpace(text) ==> var t := Strip(text);
      && |TitleOf(text)| == |t|
      && forall k :: 0 <= k < |t| ==> TitleOf(text)[k] == (if t[k] == ' ' then '_' else t[k])
  {
    var t := Strip(text);
    if t == [] {
      assert ReplaceChar("Untitled", ' ', '_') == "Untitled";
    }
  }

  /** A field that is already a clean title is used as it is. */
  lemma CleanTitleKept(text: string)
    requires text != [] && !IsSpace(text[0]) && !IsSpace(text[|text| - 1]) && ' ' !in text
    ensures TitleOf(text) == text
  {
    StripTrimmed(text);
    assert ReplaceChar(text, ' ', '_') == text;
  }

  /** The author is `"Player"` exactly when the field holds only whitespace, and the stripped field otherwise. */
  lemma AuthorSpec(text: string)
    ensures AllSpace(text) ==> AuthorOf(text) == "Player"
    ensures !AllSpace(text) ==> AuthorOf(text) == Strip(text) && Strip(text) != []
  {
  }

  /** `f"{title}_{counter}"`: the title of split tile number `k`. */
  function NumberedTitle(title: string, k: nat): (t: string)
    ensures |t| > |title| + 1 && t[..|title|] == title && t[|title|] == '_' && AllDigits(t[|title| + 1..])
  {
    title + "_" + NatToString(k)
  }

  /** `f"{title}.paint"`: the converter's output file for a title. */
  function PaintFile(title: string): (file: string)
    ensures |file| == |title| + 6 && file[..|title|] == title && file[|title|..] == ".paint"
  {
    title + ".paint"
  }

  /** `f"tile_{counter}.png"`: the temporary file of split tile number `k`. */
  function TileFileName(k: nat): (file: string)
    ensures |file| > 9 && file[..5] == "tile_" && file[|file| - 4..] == ".png" && AllDigits(file[5..|file| - 4])
  {
    "tile_" + NatToString(k) + ".png"
  }

  /** The temporary file of a single-canvas export. */
  const SingleTempName := "single_temp.png"

  /**
   * A number followed by a suffix that starts with a non-digit can be read
   * back: the digits end where the suffix begins, so both the number and the
   * suffix are determined.
   */
  lemma NumberThenSuffixInjective(k1: nat, k2: nat, suffix1: string, suffix2: string)
    requires suffix1 != [] && !IsDigit(suffix1[0])
    requires suffix2 != [] && !IsDigit(suffix2[0])
    requires NatToString(k1) + suffix1 == NatToString(k2) + suffix2
    ensures k1 == k2 && suffix1 == suffix2
  {
    var a, b := NatToString(k1), NatToString(k2);
    var joined := a + suffix1;
    // the digits run up to where each suffix starts, which is therefore the same place
    assert forall i :: 0 <= i < |a| ==> IsDigit(joined[i]);
    assert forall i :: 0 <= i < |b| ==> IsDigit((b + suffix2)[i]);
    assert !IsDigit(joined[|a|]) && !IsDigit((b + suffix2)[|b|]);
    assert |a| == |b|;
    assert a == joined[..|a|] && b == (b + suffix2)[..|b|];
    assert suffix1 == joined[|a|..] && suffix2 == (b + suffix2)[|b|..];
    NatToStringInjective(k1, k2);
  }

  /** Different tile numbers give different tile titles, output files and temporary files. */
  lemma NumberedNamesDistinct(title: string, k1: nat, k2: nat)
    requires k1 != k2
    ensures NumberedTitle(title, k1) != NumberedTitle(title, k2)
    ensures PaintFile(NumberedTitle(title, k1)) != PaintFile(NumberedTitle(title, k2))
    ensures TileFileName(k1) != TileFileName(k2)
  {
    NumberedTitlesDistinct(title, k1, k2);
    TileFileNamesDistinct(k1, k2);
  }

  /** Distinct tile numbers give distinct tile titles. */
  lemma NumberedTitlesDistinct(title: string, k1: nat, k2: nat)
    requires k1 != k2
    ensures NumberedTitle(title, k1) != NumberedTitle(title, k2)
  {
    var p := title + "_";
    var s1, s2 := NatToString(k1), NatToString(k2);
    if NumberedTitle(title, k1) == NumberedTitle(title, k2) {
      assert s1 == NumberedTitle(title, k1)[|p|..] && s2 == NumberedTitle(title, k2)[|p|..];
      NatToStringInjective(k1, k2);
    }
  }

  /** Distinct tile numbers give distinct temporary files: the number is read back from before `.png`. */
  lemma TileFileNamesDistinct(k1: nat, k2: nat)
    requires k1 != k2
    ensures TileFileName(k1) != TileFileName(k2)
  {
    var s1, s2 := NatToString(k1), NatToString(k2);
    if TileFileName(k1) == TileFileName(k2) {
      assert s1 + ".png" == TileFileName(k1)[5..] && s2 + ".png" == TileFileName(k2)[5..];
      NumberThenSuffixInjective(k1, k2, ".png", ".png");
    }
  }
}
