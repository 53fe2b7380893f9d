/** The parts of Python's `str` that the scraper relies on: `strip()` without
    arguments, `replace('...', '')` and `', '.join(parts)`. */
module Text {

  /** A character of Python's `str.isspace()` set, which `str.strip()`
      removes when it is given no argument: ASCII 9-13 and 28-32, and the
      Unicode spaces and line and paragraph separators. */
  predicate IsWhitespace(c: char) {
    ('\t' <= c <= '\r') || ('\U{1C}' <= c <= ' ') ||
    c == '\U{85}' || c == '\U{A0}' || c == '\U{1680}' ||
    ('\U{2000}' <= c <= '\U{200A}') ||
    c == '\U{2028}' || c == '\U{2029}' || c == '\U{202F}' || c == '\U{205F}' || c == '\U{3000}'
  }

  predicate AllWhitespace(s: string) {
    forall i :: 0 <= i < |s| ==> IsWhitespace(s[i])
  }

  /** Neither starts nor ends with whitespace. */
  predicate IsStripped(s: string) {
    s == [] || (!IsWhitespace(s[0]) && !IsWhitespace(s[|s| - 1]))
  }

  /** The first position at or after `i` that does not hold whitespace
      (`|s|` when there is none). */
  function TextStart(s: string, i: nat): (k: nat)
    requires i <= |s|
    ensures i <= k <= |s|
    decreases |s| - i
  {
    if i < |s| && IsWhitespace(s[i]) then TextStart(s, i + 1) else i
  }

  /** The position just after the last character before `j` that does not
      hold whitespace, but not below `i`. */
  function TextEnd(s: string, i: nat, j: nat): (k: nat)
    requires i <= j <= |s|
    ensures i <= k <= j
  {
    if j > i && IsWhitespace(s[j - 1]) then TextEnd(s, i, j - 1) else j
  }

  /** Python's `s.strip()`: the result neither starts nor ends with
      whitespace, and it is empty exactly when `s` is blank. */
  function Strip(s: string): (r: string)
    ensures IsStripped(r)
    ensures r == [] <==> AllWhitespace(s)
  {
    var i := TextStart(s, 0);
    var j := TextEnd(s, i, |s|);
    TextStartSpec(s, 0);
    TextEndSpec(s, i, |s|);
    StripBounds(s, i, j);
    s[i..j]
  }

  lemma {:induction false} TextStartSpec(s: string, i: nat)
    requires i <= |s|
    ensures forall n :: i <= n < TextStart(s, i) ==> IsWhitespace(s[n])
    ensures TextStart(s, i) < |s| ==> !IsWhitespace(s[TextStart(s, i)])
    decreases |s| - i
  {
    if i < |s| && IsWhitespace(s[i]) {
      TextStartSpec(s, i + 1);
    }
  }

  lemma {:induction false} TextEndSpec(s: string, i: nat, j: nat)
    requires i <= j <= |s|
    ensures forall n :: TextEnd(s, i, j) <= n < j ==> IsWhitespace(s[n])
    ensures TextEnd(s, i, j) > i ==> !IsWhitespace(s[TextEnd(s, i, j) - 1])
  {
    if j > i && IsWhitespace(s[j - 1]) {
      TextEndSpec(s, i, j - 1);
    }
  }

  /** `strip` returns a substring of `s` with only whitespace around it. */
  lemma StripSpec(s: string)
    ensures exists i, j :: 0 <= i <= j <= |s| && Strip(s) == s[i..j] && AllWhitespace(s[..i]) && AllWhitespace(s[j..])
  {
    var i := TextStart(s, 0);
    var j := TextEnd(s, i, |s|);
    TextStartSpec(s, 0);
    TextEndSpec(s, i, |s|);
    StripBounds(s, i, j);
  }

  /** Cutting the whitespace before `i` and from `j` on, where neither cut can
      grow, leaves a stripped string, empty only for a blank `s`. */
  lemma StripBounds(s: string, i: nat, j: nat)
    requires i <= j <= |s|
    requires forall n :: 0 <= n < i ==> IsWhitespace(s[n])
    requires i < |s| ==> !IsWhitespace(s[i])
    requires forall n :: j <= n < |s| ==> IsWhitespace(s[n])
    requires j > i ==> !IsWhitespace(s[j - 1])
    ensures AllWhitespace(s[..i]) && AllWhitespace(s[j..])
    ensures IsStripped(s[i..j])
    ensures s[i..j] == [] <==> AllWhitespace(s)
  {
    if j > i {
      assert s[i..j][0] == s[i];
      assert s[i..j][j - i - 1] == s[j - 1];
    }
  }

  lemma {:induction false} TextStartAt(s: string, i: nat, k: nat)
    requires i <= k <= |s|
    requires forall n :: i <= n < k ==> IsWhitespace(s[n])
    requires k < |s| ==> !IsWhitespace(s[k])
    ensures TextStart(s, i) == k
    decreases k - i
  {
    if i < k {
      TextStartAt(s, i + 1, k);
    }
  }

  lemma {:induction false} TextEndAt(s: string, i: nat, j: nat, k: nat)
    requires i <= k <= j <= |s|
    requires forall n :: k <= n < j ==> IsWhitespace(s[n])
    requires k > i ==> !IsWhitespace(s[k - 1])
    ensures TextEnd(s, i, j) == k
    decreases j - k
  {
    if k < j {
      TextEndAt(s, i, j - 1, k);
    }
  }

  /** Whatever whitespace surrounds a stripped text, `strip` gives that text back. */
  lemma StripPadded(before: string, text: string, after: string)
    requires AllWhitespace(before) && AllWhitespace(after) && IsStripped(text) && text != []
    ensures Strip(before + text + after) == text
  {
    var s := before + text + after;
    var i, j := |before|, |before| + |text|;
    assert s[i] == text[0] && s[j - 1] == text[|text| - 1];
    TextStartAt(s, 0, i);
    TextEndAt(s, i, |s|, j);
    assert s[i..j] == text;
  }

  /** An ellipsis, three dots, starts at position `k` of `s`. */
  predicate EllipsisAt(s: string, k: int) {
    0 <= k && k + 3 <= |s| && s[k] == '.' && s[k + 1] == '.' && s[k + 2] == '.'
  }

  ghost predicate HasEllipsis(s: string) {
    exists k :: EllipsisAt(s, k)
  }

  /** Python's `s.replace('...', '')`: scans left to right and deletes every
      non-overlapping ellipsis, so `"...."` becomes `"."`. */
  function RemoveEllipses(s: string): (r: string)
    ensures |r| <= |s|
  {
    if |s| < 3 then s
    else if EllipsisAt(s, 0) then RemoveEllipses(s[3..])
    else [s[0]] + RemoveEllipses(s[1..])
  }

  /** The number of characters in all of `parts`. */
  function TotalLength(parts: seq<string>): nat {
    if parts == [] then 0 else TotalLength(parts[..|parts| - 1]) + |parts[|parts| - 1]|
  }

  /** Python's `sep.join(parts)`: the parts with one separator between each
      two neighbours, so its length is theirs plus `|parts| - 1` separators. */
  function Join(parts: seq<string>, sep: string): (r: string)
    ensures parts != [] ==> |r| == TotalLength(parts) + (|parts| - 1) * |sep|
    ensures parts == [] ==> r == ""
  {
    if |parts| == 0 then ""
    else if |parts| == 1 then parts[0]
    else Join(parts[..|parts| - 1], sep) + sep + parts[|parts| - 1]
  }

  // ---------------------------------------------------------------- strip

  /** `strip` leaves an already stripped string alone, so it is idempotent. */
  lemma StripStripped(s: string)
    requires IsStripped(s)
    ensures Strip(s) == s
  {
  }

  lemma StripIdempotent(s: string)
    ensures Strip(Strip(s)) == Strip(s)
  {
    StripSpec(s);
    StripStripped(Strip(s));
  }

  // ---------------------------------------------------------------- replace

  /** The characters of `s` other than dots, in order. */
  function NonDots(s: string): (r: string)
  {
    if s == [] then []
    else (if s[0] == '.' then [] else [s[0]]) + NonDots(s[1..])
  }

  lemma {:induction false} NonDotsAppend(a: string, b: string)
    ensures NonDots(a + b) == NonDots(a) + NonDots(b)
  {
    if a == [] {
      assert a + b == b;
    } else {
      assert (a + b)[0] == a[0] && (a + b)[1..] == a[1..] + b;
      NonDotsAppend(a[1..], b);
    }
  }

  /** Removing ellipses keeps every character other than a dot, in order,
      and deletes a multiple of three characters. */
  lemma {:induction false} RemoveEllipsesDeletesOnlyDots(s: string)
    ensures NonDots(RemoveEllipses(s)) == NonDots(s)
    ensures (|s| - |RemoveEllipses(s)|) % 3 == 0
  {
    if |s| < 3 {
    } else if EllipsisAt(s, 0) {
      RemoveEllipsesDeletesOnlyDots(s[3..]);
      assert s == "..." + s[3..];
      NonDotsAppend("...", s[3..]);
    } else {
      RemoveEllipsesDeletesOnlyDots(s[1..]);
      assert s == [s[0]] + s[1..];
      NonDotsAppend([s[0]], s[1..]);
      NonDotsAppend([s[0]], RemoveEllipses(s[1..]));
    }
  }

  /** `n` dots. */
  function Dots(n: nat): (r: string)
    ensures |r| == n && forall k :: 0 <= k < n ==> r[k] == '.'
  {
    if n == 0 then "" else "." + Dots(n - 1)
  }

  /** A string of `n` dots keeps `n % 3` of them. */
  lemma {:induction false} RemoveEllipsesDots(n: nat)
    ensures RemoveEllipses(Dots(n)) == Dots(n % 3)
  {
    if n >= 3 {
      assert EllipsisAt(Dots(n), 0);
      assert Dots(n)[3..] == Dots(n - 3);
      RemoveEllipsesDots(n - 3);
    }
  }

  /** A run of `n` dots ended by another character keeps `n % 3` dots, and
      the replacement starts afresh after that character. With
      `RemoveEllipsesDots` this fixes the result for every string: each
      maximal run of dots shrinks to its length modulo three, and nothing
      else changes. */
  lemma {:induction false} RemoveEllipsesRun(n: nat, c: char, rest: string)
    requires c != '.'
    ensures RemoveEllipses(Dots(n) + [c] + rest) == Dots(n % 3) + [c] + RemoveEllipses(rest)
  {
    if n >= 3 {
      RemoveEllipsesRun(n - 3, c, rest);
      RemoveEllipsesRunStep(n, c, rest);
    } else if n == 0 {
      RemoveEllipsesNonDot(c, rest);
    } else {
      RemoveEllipsesRun(n - 1, c, rest);
      RemoveEllipsesLoneDot(n, c, rest);
    }
  }

  /** Three leading dots of a run are one ellipsis. */
  lemma RemoveEllipsesRunStep(n: nat, c: char, rest: string)
    requires n >= 3
    requires RemoveEllipses(Dots(n - 3) + [c] + rest) == Dots((n - 3) % 3) + [c] + RemoveEllipses(rest)
    ensures RemoveEllipses(Dots(n) + [c] + rest) == Dots(n % 3) + [c] + RemoveEllipses(rest)
  {
    var s := Dots(n) + [c] + rest;
    assert EllipsisAt(s, 0);
    assert s[3..] == Dots(n - 3) + [c] + rest;
    assert (n - 3) % 3 == n % 3;
  }

  /** A leading character other than a dot is kept. */
  lemma RemoveEllipsesNonDot(c: char, rest: string)
    requires c != '.'
    ensures RemoveEllipses([c] + rest) == [c] + RemoveEllipses(rest)
  {
    var s := [c] + rest;
    if |s| < 3 {
      RemoveEllipsesShort(rest);
    } else {
      assert s[1..] == rest;
    }
  }

  /** One or two dots before another character are kept. */
  lemma RemoveEllipsesLoneDot(n: nat, c: char, rest: string)
    requires 0 < n < 3 && c != '.'
    requires RemoveEllipses(Dots(n - 1) + [c] + rest) == Dots(n - 1) + [c] + RemoveEllipses(rest)
    ensures RemoveEllipses(Dots(n) + [c] + rest) == Dots(n % 3) + [c] + RemoveEllipses(rest)
  {
    var s := Dots(n) + [c] + rest;
    var t := Dots(n - 1) + [c] + rest;
    assert s == "." + t;
    if |s| < 3 {
      RemoveEllipsesShort(t);
    } else {
      assert s[n] == c;
      assert !EllipsisAt(s, 0);
      assert s[1..] == t;
    }
    assert "." + (Dots(n - 1) + [c] + RemoveEllipses(rest)) == Dots(n) + [c] + RemoveEllipses(rest);
  }

  /** A prefix without dots passes through unchanged. */
  lemma {:induction false} RemoveEllipsesDotFree(a: string, b: string)
    requires forall n :: 0 <= n < |a| ==> a[n] != '.'
    ensures RemoveEllipses(a + b) == a + RemoveEllipses(b)
  {
    if a == [] {
      assert a + b == b;
    } else {
      var s := a + b;
      assert s[0] == a[0] && s[1..] == a[1..] + b;
      if |s| < 3 {
        RemoveEllipsesShort(b);
      } else {
        assert !EllipsisAt(s, 0);
        assert RemoveEllipses(s) == [a[0]] + RemoveEllipses(a[1..] + b);
        RemoveEllipsesDotFree(a[1..], b);
        assert [a[0]] + (a[1..] + RemoveEllipses(b)) == a + RemoveEllipses(b);
      }
    }
  }

  lemma RemoveEllipsesShort(s: string)
    requires |s| < 3
    ensures RemoveEllipses(s) == s
  {
  }

  /** A string that does not start with a dot keeps its first character. */
  lemma RemoveEllipsesHead(s: string)
    requires s != [] && s[0] != '.'
    ensures RemoveEllipses(s) != [] && RemoveEllipses(s)[0] == s[0]
  {
  }

  /** No ellipsis is left after `replace('...', '')`: a run of dots keeps
      fewer than three of them. */
  lemma {:induction false} RemoveEllipsesLeavesNone(s: string)
    ensures !HasEllipsis(RemoveEllipses(s))
  {
    var r := RemoveEllipses(s);
    if |s| < 3 {
    } else if EllipsisAt(s, 0) {
      RemoveEllipsesLeavesNone(s[3..]);
    } else {
      var rest := RemoveEllipses(s[1..]);
      RemoveEllipsesLeavesNone(s[1..]);
      assert r == [s[0]] + rest;
      if s[0] == '.' {
        // The rest cannot start with two dots, or an ellipsis would have started at 0.
        if s[1] != '.' {
          RemoveEllipsesHead(s[1..]);
        } else {
          assert s[2] != '.';
          if |s| > 3 {
            assert !EllipsisAt(s[1..], 0);
            assert rest == [s[1]] + RemoveEllipses(s[2..]);
            RemoveEllipsesHead(s[2..]);
          }
        }
        assert !(|rest| >= 2 && rest[0] == '.' && rest[1] == '.');
      }
      forall k | EllipsisAt(r, k) ensures false {
        if k > 0 { assert EllipsisAt(rest, k - 1); }
      }
    }
  }

  /** A string without an ellipsis is left unchanged. */
  lemma {:induction false} RemoveEllipsesNone(s: string)
    requires !HasEllipsis(s)
    ensures RemoveEllipses(s) == s
  {
    if |s| >= 3 {
      assert !EllipsisAt(s, 0);
      forall k | EllipsisAt(s[1..], k) ensures false {
        assert EllipsisAt(s, k + 1);
      }
      RemoveEllipsesNone(s[1..]);
    }
  }

  lemma RemoveEllipsesIdempotent(s: string)
    ensures RemoveEllipses(RemoveEllipses(s)) == RemoveEllipses(s)
  {
    RemoveEllipsesLeavesNone(s);
    RemoveEllipsesNone(RemoveEllipses(s));
  }

  /** Stripping cannot create an ellipsis. */
  lemma NoEllipsisInStrip(s: string)
    requires !HasEllipsis(s)
    ensures !HasEllipsis(Strip(s))
  {
    StripSpec(s);
    var i, j :| 0 <= i <= j <= |s| && Strip(s) == s[i..j] && AllWhitespace(s[..i]) && AllWhitespace(s[j..]);
    NoEllipsisInSlice(s, i, j);
  }

  /** A substring of a string without an ellipsis has none either. */
  lemma NoEllipsisInSlice(s: string, i: int, j: int)
    requires 0 <= i <= j <= |s| && !HasEllipsis(s)
    ensures !HasEllipsis(s[i..j])
  {
    forall k | EllipsisAt(s[i..j], k) ensures false {
      assert EllipsisAt(s, i + k);
    }
  }

  // ---------------------------------------------------------------- join

  /** Two parts are joined with one separator between them. */
  lemma JoinPair(a: string, b: string, sep: string)
    ensures Join([a, b], sep) == a + sep + b
  {
    assert [a, b][..1] == [a];
  }

  lemma {:induction false} JoinAppend(a: seq<string>, b: seq<string>, sep: string)
    requires a != [] && b != []
    ensures Join(a + b, sep) == Join(a, sep) + sep + Join(b, sep)
    decreases |b|
  {
    if |b| == 1 {
      assert (a + b)[..|a + b| - 1] == a;
    } else {
      var b' := b[..|b| - 1];
      assert (a + b)[..|a + b| - 1] == a + b';
      JoinAppend(a, b', sep);
    }
  }

  /** Joining gives `""` exactly when there is nothing to join or the only
      part is empty. */
  lemma {:induction false} JoinEmpty(parts: seq<string>, sep: string)
    requires sep != []
    ensures Join(parts, sep) == "" <==> parts == [] || parts == [""]
  {
  }
}
