/** Bold-text extraction: `extract_bold_text_from_snippets` in app.py. */
module BoldText {
  import opened Text

  /** The HTML parser, supplied by the caller: it maps a snippet to the texts
      of its `<b>` and `<strong>` elements in document order, and to `[]` for a
      snippet it cannot make sense of. */
  type Parser = string -> seq<string>

  /** The cleaning applied to one element's text: delete the ellipses, then
      strip the whitespace at both ends. What is left has no whitespace at
      either end and no ellipsis. */
  function Clean(text: string): (r: string)
    ensures IsStripped(r) && !HasEllipsis(r)
  {
    RemoveEllipsesLeavesNone(text);
    NoEllipsisInStrip(RemoveEllipses(text));
    Strip(RemoveEllipses(text))
  }

  /** The images under `f` of the elements of `xs`, in order, leaving out
      those that are empty. */
  function NonEmptyImages<T>(xs: seq<T>, f: T -> string): (r: seq<string>)
    ensures |r| <= |xs|
    ensures forall k :: 0 <= k < |r| ==> r[k] != ""
  {
    if xs == [] then []
    else
      var y := f(xs[|xs| - 1]);
      NonEmptyImages(xs[..|xs| - 1], f) + (if y == "" then [] else [y])
  }

  /** The positions of the elements of `xs` whose image under `f` is not
      empty, in increasing order. */
  function NonEmptyPositions<T>(xs: seq<T>, f: T -> string): (r: seq<nat>)
  {
    if xs == [] then []
    else
      var n := |xs| - 1;
      NonEmptyPositions(xs[..n], f) + (if f(xs[n]) == "" then [] else [n])
  }

  /** The cleaned texts of `texts` that are not empty, in order. */
  function Kept(texts: seq<string>): seq<string> {
    NonEmptyImages(texts, Clean)
  }

  /** The fragments the extraction keeps from a list of snippets: snippet by
      snippet, and element by element within each snippet. */
  function Fragments(snippets: seq<string>, parse: Parser): (r: seq<string>)
  {
    if snippets == [] then []
    else Fragments(snippets[..|snippets| - 1], parse) + Kept(parse(snippets[|snippets| - 1]))
  }

  /** What a kept fragment looks like: not empty, no whitespace at either
      end, no ellipsis. */
  ghost predicate IsFragment(s: string) {
    s != "" && IsStripped(s) && !HasEllipsis(s)
  }

  lemma KeptAreFragments(texts: seq<string>)
    ensures forall k :: 0 <= k < |Kept(texts)| ==> IsFragment(Kept(texts)[k])
  {
    KeptIsFilter(texts);
    forall k | 0 <= k < |Kept(texts)| ensures IsFragment(Kept(texts)[k]) {
      assert Kept(texts)[k] == Clean(texts[NonEmptyPositions(texts, Clean)[k]]);
    }
  }

  /** Every fragment in the joined text is non-empty, has no whitespace at
      either end and no ellipsis. */
  lemma {:induction false} FragmentsAreFragments(snippets: seq<string>, parse: Parser)
    ensures forall k :: 0 <= k < |Fragments(snippets, parse)| ==> IsFragment(Fragments(snippets, parse)[k])
  {
    if snippets != [] {
      FragmentsAreFragments(snippets[..|snippets| - 1], parse);
      KeptAreFragments(parse(snippets[|snippets| - 1]));
    }
  }

  /** The text written to the `Bold Text` column for these snippets. */
  function BoldTextOf(snippets: seq<string>, parse: Parser): string {
    Join(Fragments(snippets, parse), ", ")
  }

  /** `extract_bold_text_from_snippets`: collects the cleaned non-empty texts
      of every bold element, snippet by snippet, and joins them with ", ". */
  method ExtractBoldText(htmlSnippets: seq<string>, parse: Parser) returns (r: string)
    ensures r == Join(Fragments(htmlSnippets, parse), ", ")
  {
    var boldTexts: seq<string> := [];
    for n := 0 to |htmlSnippets|
      invariant boldTexts == Fragments(htmlSnippets[..n], parse)
    {
      var tags := parse(htmlSnippets[n]);
      ghost var done := boldTexts;
      for m := 0 to |tags|
        invariant boldTexts == done + Kept(tags[..m])
      {
        var cleanedText := Clean(tags[m]);
        if cleanedText != "" {
          boldTexts := boldTexts + [cleanedText];
        }
        KeptStep(tags, m);
      }
      FragmentsStep(htmlSnippets, n, parse);
    }
    assert htmlSnippets[..|htmlSnippets|] == htmlSnippets;
    r := Join(boldTexts, ", ");
  }

  // ---------------------------------------------------------------- order

  lemma {:induction false} NonEmptyImagesAppend<T>(a: seq<T>, b: seq<T>, f: T -> string)
    ensures NonEmptyImages(a + b, f) == NonEmptyImages(a, f) + NonEmptyImages(b, f)
    decreases |b|
  {
    if b == [] {
      assert a + b == a;
    } else {
      var b' := b[..|b| - 1];
      assert (a + b)[..|a + b| - 1] == a + b';
      assert (a + b)[|a + b| - 1] == b[|b| - 1];
      NonEmptyImagesAppend(a, b', f);
    }
  }

  /** Collecting from one more snippet of a list. */
  lemma FragmentsStep(snippets: seq<string>, n: nat, parse: Parser)
    requires n < |snippets|
    ensures Fragments(snippets[..n + 1], parse) == Fragments(snippets[..n], parse) + Kept(parse(snippets[n])[..|parse(snippets[n])|])
  {
    assert snippets[..n + 1][..n] == snippets[..n];
    assert parse(snippets[n])[..|parse(snippets[n])|] == parse(snippets[n]);
  }

  /** Keeping one more text of a list. */
  lemma KeptStep(texts: seq<string>, m: nat)
    requires m < |texts|
    ensures Kept(texts[..m + 1]) == Kept(texts[..m]) + if Clean(texts[m]) == "" then [] else [Clean(texts[m])]
  {
    assert texts[..m + 1][..m] == texts[..m];
  }

  /** Keeping is done text by text: the texts of `a + b` keep what `a` keeps
      followed by what `b` keeps. */
  lemma KeptAppend(a: seq<string>, b: seq<string>)
    ensures Kept(a + b) == Kept(a) + Kept(b)
  {
    NonEmptyImagesAppend(a, b, Clean);
  }

  /** One text contributes its cleaned form when that is not empty, and
      nothing otherwise. */
  lemma KeptOne(text: string)
    ensures Kept([text]) == if Clean(text) == "" then [] else [Clean(text)]
  {
    assert [text][..0] == [];
  }

  lemma {:induction false} FragmentsAppend(a: seq<string>, b: seq<string>, parse: Parser)
    ensures Fragments(a + b, parse) == Fragments(a, parse) + Fragments(b, parse)
    decreases |b|
  {
    if b == [] {
      assert a + b == a;
    } else {
      var b', x := b[..|b| - 1], b[|b| - 1];
      SnocAppend(a, b);
      FragmentsSnoc(a + b', x, parse);
      FragmentsSnoc(b', x, parse);
      FragmentsAppend(a, b', parse);
      AppendAssoc(Fragments(a, parse), Fragments(b', parse), Kept(parse(x)));
    }
  }

  /** Splitting off the last element of a concatenation. */
  lemma SnocAppend<T>(a: seq<T>, b: seq<T>)
    requires b != []
    ensures b == b[..|b| - 1] + [b[|b| - 1]]
    ensures a + b == (a + b[..|b| - 1]) + [b[|b| - 1]]
  {
  }

  lemma AppendAssoc<T>(x: seq<T>, y: seq<T>, z: seq<T>)
    ensures (x + y) + z == x + (y + z)
  {
  }

  /** One more snippet adds what is kept from its bold texts. */
  lemma FragmentsSnoc(snippets: seq<string>, x: string, parse: Parser)
    ensures Fragments(snippets + [x], parse) == Fragments(snippets, parse) + Kept(parse(x))
  {
    assert (snippets + [x])[..|snippets|] == snippets;
  }

  /** One snippet contributes the kept texts of its bold elements. */
  lemma FragmentsOne(snippet: string, parse: Parser)
    ensures Fragments([snippet], parse) == Kept(parse(snippet))
  {
    assert [snippet][..0] == [];
  }

  /** `NonEmptyImages` is an order-preserving filter: its m-th entry is the
      image of the element at the m-th position of `NonEmptyPositions`, which
      holds, in increasing order, exactly the positions with a non-empty image. */
  lemma {:induction false} NonEmptyImagesIsFilter<T>(xs: seq<T>, f: T -> string)
    ensures |NonEmptyPositions(xs, f)| == |NonEmptyImages(xs, f)|
    ensures forall m :: 0 <= m < |NonEmptyImages(xs, f)| ==>
      NonEmptyPositions(xs, f)[m] < |xs| && NonEmptyImages(xs, f)[m] == f(xs[NonEmptyPositions(xs, f)[m]])
    ensures forall m, m' :: 0 <= m < m' < |NonEmptyPositions(xs, f)| ==> NonEmptyPositions(xs, f)[m] < NonEmptyPositions(xs, f)[m']
    ensures forall p :: 0 <= p < |xs| ==> (p in NonEmptyPositions(xs, f) <==> f(xs[p]) != "")
  {
    if xs != [] {
      var n := |xs| - 1;
      var init := xs[..n];
      NonEmptyImagesIsFilter(init, f);
      assert forall p :: 0 <= p < n ==> xs[p] == init[p];
    }
  }

  /** The texts kept are the cleaned texts at the positions, in increasing
      order, whose cleaned text is not empty, so the number of pieces joined
      is the number of elements whose cleaned text is not empty. */
  lemma KeptIsFilter(texts: seq<string>)
    ensures |NonEmptyPositions(texts, Clean)| == |Kept(texts)|
    ensures forall m :: 0 <= m < |Kept(texts)| ==>
      NonEmptyPositions(texts, Clean)[m] < |texts| && Kept(texts)[m] == Clean(texts[NonEmptyPositions(texts, Clean)[m]])
    ensures forall m, m' :: 0 <= m < m' < |Kept(texts)| ==> NonEmptyPositions(texts, Clean)[m] < NonEmptyPositions(texts, Clean)[m']
    ensures forall p :: 0 <= p < |texts| ==> (p in NonEmptyPositions(texts, Clean) <==> Clean(texts[p]) != "")
  {
    NonEmptyImagesIsFilter(texts, Clean);
  }

  /** Nothing is kept exactly when every image is empty. */
  lemma {:induction false} NonEmptyImagesEmpty<T>(xs: seq<T>, f: T -> string)
    ensures NonEmptyImages(xs, f) == [] <==> forall p :: 0 <= p < |xs| ==> f(xs[p]) == ""
  {
    if xs != [] {
      var n := |xs| - 1;
      NonEmptyImagesEmpty(xs[..n], f);
      assert forall p :: 0 <= p < n ==> xs[..n][p] == xs[p];
    }
  }

  // ---------------------------------------------------------------- empty output

  /** The joined text is empty exactly when no fragment is kept. */
  lemma BoldTextEmpty(snippets: seq<string>, parse: Parser)
    ensures BoldTextOf(snippets, parse) == "" <==> Fragments(snippets, parse) == []
  {
    JoinEmpty(Fragments(snippets, parse), ", ");
    FragmentsAreFragments(snippets, parse);
  }

  /** No fragment is kept exactly when every bold element of every snippet
      cleans to the empty string; in particular for no snippets, or for
      snippets without bold elements. */
  lemma {:induction false} FragmentsEmpty(snippets: seq<string>, parse: Parser)
    ensures Fragments(snippets, parse) == [] <==>
      forall k, m :: 0 <= k < |snippets| && 0 <= m < |parse(snippets[k])| ==> Clean(parse(snippets[k])[m]) == ""
  {
    if snippets != [] {
      var n := |snippets| - 1;
      FragmentsEmpty(snippets[..n], parse);
      NonEmptyImagesEmpty(parse(snippets[n]), Clean);
      assert forall k :: 0 <= k < n ==> snippets[..n][k] == snippets[k];
    }
  }

  // ---------------------------------------------------------------- cleaning

  /** Cleaning an already cleaned text changes nothing. */
  lemma CleanIdempotent(text: string)
    ensures Clean(Clean(text)) == Clean(text)
  {
    var c := Clean(text);
    RemoveEllipsesNone(c);
    StripStripped(c);
  }

  /** A text made only of whitespace characters and whole ellipses cleans to
      the empty string. Each unit is either one whitespace character or
      `"..."`. */
  lemma {:induction false} WhitespaceAndEllipsesVanish(units: seq<string>)
    requires forall k :: 0 <= k < |units| ==> units[k] == "..." || (|units[k]| == 1 && IsWhitespace(units[k][0]))
    ensures Clean(Concat(units)) == ""
  {
    RemovesToWhitespace(units);
    StripSpec(RemoveEllipses(Concat(units)));
  }

  function Concat(units: seq<string>): string {
    if units == [] then "" else units[0] + Concat(units[1..])
  }

  lemma {:induction false} RemovesToWhitespace(units: seq<string>)
    requires forall k :: 0 <= k < |units| ==> units[k] == "..." || (|units[k]| == 1 && IsWhitespace(units[k][0]))
    ensures AllWhitespace(RemoveEllipses(Concat(units)))
  {
    if units != [] {
      var s := Concat(units);
      var rest := Concat(units[1..]);
      RemovesToWhitespace(units[1..]);
      assert s == units[0] + rest;
      if units[0] == "..." {
        assert EllipsisAt(s, 0) && s[3..] == rest;
      } else if |s| < 3 {
        forall n | 0 <= n < |s| ensures IsWhitespace(s[n]) {
          if n > 0 { RemoveEllipsesShort(rest); assert s[n] == rest[n - 1]; }
        }
      } else {
        assert s[1..] == rest;
      }
    }
  }

  // ---------------------------------------------------------------- examples

  /** `"..."` contributes nothing. */
  lemma CleanEllipsis()
    ensures Clean("...") == ""
  {
    assert RemoveEllipses("...") == RemoveEllipses("");
  }

  /** `" ... "` contributes nothing. */
  lemma CleanSpacedEllipsis()
    ensures Clean(" ... ") == ""
  {
    WhitespaceAndEllipsesVanish([" ", "...", " "]);
    assert Concat([" ", "...", " "]) == " ... ";
  }

  /** `" Gamma... "` contributes `"Gamma"`. */
  lemma CleanGamma()
    ensures Clean(" Gamma... ") == "Gamma"
  {
    assert " Gamma... " == " Gamma" + "... ";
    RemoveEllipsesDotFree(" Gamma", "... ");
    assert RemoveEllipses("... ") == " ";
    assert " Gamma" + " " == " " + "Gamma" + " ";
    StripPadded(" ", "Gamma", " ");
  }

  /** `"...."` keeps one dot: the ellipses are removed left to right without
      overlapping. */
  lemma CleanFourDots()
    ensures Clean("....") == "."
  {
    assert RemoveEllipses("....") == ".";
    StripStripped(".");
  }

  /** Two snippets whose bold tags read `" Gamma... "`, `" ... "` and
      `"...."`: the ellipsis-only tag is dropped and the others are joined
      with `", "`. */
  lemma BoldTextExample(parse: Parser)
    requires parse("first") == [" Gamma... ", " ... "] && parse("second") == ["...."]
    ensures BoldTextOf(["first", "second"], parse) == "Gamma, ."
  {
    assert Kept(parse("first")) == ["Gamma"] && Kept(parse("second")) == ["."] by {
      KeptGamma();
      KeptFourDots();
    }
    BoldTextOfTwo("first", "second", "Gamma", ".", parse);
    assert "Gamma" + ", " + "." == "Gamma, .";
  }

  lemma KeptGamma()
    ensures Kept([" Gamma... ", " ... "]) == ["Gamma"]
  {
    CleanGamma();
    CleanSpacedEllipsis();
    KeptPair(" Gamma... ", " ... ");
  }

  lemma KeptFourDots()
    ensures Kept(["...."]) == ["."]
  {
    CleanFourDots();
    KeptOne("....");
  }

  /** Snippets whose bold texts are `"fast"` and `"light..."` (such as
      `<b>fast</b>` and `<strong>light...</strong>`) give `"fast, light"`. */
  lemma BoldTextFastLight(a: string, b: string, parse: Parser)
    requires parse(a) == ["fast"] && parse(b) == ["light..."]
    ensures BoldTextOf([a, b], parse) == "fast, light"
  {
    KeptFastLight(parse(a), parse(b));
    BoldTextOfTwo(a, b, "fast", "light", parse);
    JoinedFastLight();
  }

  lemma KeptFastLight(x: seq<string>, y: seq<string>)
    requires x == ["fast"] && y == ["light..."]
    ensures Kept(x) == ["fast"] && Kept(y) == ["light"]
  {
    KeptFast();
    KeptLight();
  }

  lemma JoinedFastLight()
    ensures "fast" + ", " + "light" == "fast, light"
  {
  }

  lemma KeptFast()
    ensures Kept(["fast"]) == ["fast"]
  {
    CleanFast();
    KeptOne("fast");
  }

  lemma KeptLight()
    ensures Kept(["light..."]) == ["light"]
  {
    CleanLight();
    KeptOne("light...");
  }

  /** Two snippets that keep one fragment each give the two joined by `", "`. */
  lemma BoldTextOfTwo(a: string, b: string, p: string, q: string, parse: Parser)
    requires Kept(parse(a)) == [p] && Kept(parse(b)) == [q]
    ensures BoldTextOf([a, b], parse) == p + ", " + q
  {
    TwoSnippets(a, b, parse);
    assert Fragments([a, b], parse) == [p, q];
    JoinPair(p, q, ", ");
  }

  lemma CleanFast()
    ensures Clean("fast") == "fast"
  {
    assert "fast" + "" == "fast";
    RemoveEllipsesDotFree("fast", "");
    StripStripped("fast");
  }

  lemma CleanLight()
    ensures Clean("light...") == "light"
  {
    assert "light..." == "light" + "...";
    RemoveEllipsesDotFree("light", "...");
    assert RemoveEllipses("...") == "";
    assert "light" + "" == "light";
    StripStripped("light");
  }

  lemma TwoSnippets(a: string, b: string, parse: Parser)
    ensures Fragments([a, b], parse) == Kept(parse(a)) + Kept(parse(b))
  {
    assert [a, b] == [a] + [b];
    FragmentsAppend([a], [b], parse);
    FragmentsOne(a, parse);
    FragmentsOne(b, parse);
  }

  lemma KeptPair(x: string, y: string)
    ensures Kept([x, y]) == Kept([x]) + Kept([y])
    ensures Kept([x]) == if Clean(x) == "" then [] else [Clean(x)]
    ensures Kept([y]) == if Clean(y) == "" then [] else [Clean(y)]
  {
    assert [x, y] == [x] + [y];
    KeptAppend([x], [y]);
    KeptOne(x);
    KeptOne(y);
  }
}
