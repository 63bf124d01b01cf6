/** `extractUrls`: the global, case-insensitive match of `https?://` followed by a run of
    non-space characters, scanned left to right as `String.prototype.match` does. */
module UrlExtraction {
  import Text

  /** `c` matches the pattern character `p` under the `i` flag, which folds only ASCII
      letters here. */
  predicate SameLetter(c: char, p: char) {
    c == p || ('a' <= p <= 'z' && c as int == p as int - 32)
  }

  /** The pattern text `p` occurs at position `i`, letter case ignored. */
  predicate PrefixAt(t: string, i: nat, p: string) {
    i + |p| <= |t| && forall m :: 0 <= m < |p| ==> SameLetter(t[i + m], p[m])
  }

  /** The length of the scheme `http://` or `https://` at position `i`, or 0 when neither
      starts there. `s?` is greedy, so an `s` is taken whenever `://` follows it. */
  function SchemeAt(t: string, i: nat): (k: nat)
    ensures k == 0 || k == 7 || k == 8
    ensures k == 8 <==> PrefixAt(t, i, "https://")
    ensures k == 7 <==> PrefixAt(t, i, "http://") && !PrefixAt(t, i, "https://")
  {
    if PrefixAt(t, i, "https://") then 8
    else if PrefixAt(t, i, "http://") then 7
    else 0
  }

  /** Whether the pattern matches at position `i`: a scheme and at least one non-space. */
  predicate MatchAt(t: string, i: nat) {
    var k := SchemeAt(t, i);
    k > 0 && i + k < |t| && !Text.IsSpace(t[i + k])
  }

  /** The end of the run of non-space characters starting at `j`. */
  function RunEnd(t: string, j: nat): (e: nat)
    requires j <= |t|
    ensures j <= e <= |t| && (e == |t| || Text.IsSpace(t[e]))
    ensures forall m :: j <= m < e ==> !Text.IsSpace(t[m])
    ensures j < |t| && !Text.IsSpace(t[j]) ==> e > j
    decreases |t| - j
  {
    if j == |t| || Text.IsSpace(t[j]) then j else RunEnd(t, j + 1)
  }

  /** The spans `[start, end)` of the matches found by scanning from `i`. */
  function Spans(t: string, i: nat): (ss: seq<(nat, nat)>)
    requires i <= |t|
    ensures forall k :: 0 <= k < |ss| ==> i <= ss[k].0 < ss[k].1 <= |t|
    decreases |t| - i
  {
    if i == |t| then []
    else if MatchAt(t, i) then
      var e := RunEnd(t, i + SchemeAt(t, i));
      [(i, e)] + Spans(t, e)
    else
      Spans(t, i + 1)
  }

  /** `x` is a match that reaches to the end of its run of non-space characters. */
  predicate MatchSpan(t: string, x: (nat, nat)) {
    MatchAt(t, x.0) && x.1 == RunEnd(t, x.0 + SchemeAt(t, x.0))
  }

  lemma MatchSpanCons(t: string, x: (nat, nat), rest: seq<(nat, nat)>)
    requires MatchSpan(t, x) && forall k :: 0 <= k < |rest| ==> MatchSpan(t, rest[k])
    ensures forall k :: 0 <= k < |[x] + rest| ==> MatchSpan(t, ([x] + rest)[k])
  {
    var ss := [x] + rest;
    forall k | 0 <= k < |ss| ensures MatchSpan(t, ss[k]) {
      if k > 0 {
        assert ss[k] == rest[k - 1];
      }
    }
  }

  /** Each span is a match and reaches to the end of its run of non-space characters. */
  lemma {:induction false} SpansAreMaximalMatches(t: string, i: nat)
    requires i <= |t|
    ensures forall k :: 0 <= k < |Spans(t, i)| ==> MatchSpan(t, Spans(t, i)[k])
    decreases |t| - i
  {
    if i < |t| {
      if MatchAt(t, i) {
        var e := RunEnd(t, i + SchemeAt(t, i));
        SpansAreMaximalMatches(t, e);
        MatchSpanCons(t, (i, e), Spans(t, e));
      } else {
        SpansAreMaximalMatches(t, i + 1);
      }
    }
  }

  /** Spans come in text order when each ends no later than the next begins. */
  predicate Ordered(ss: seq<(nat, nat)>) {
    forall k :: 0 <= k < |ss| - 1 ==> ss[k].1 <= ss[k + 1].0
  }

  lemma OrderedCons(x: (nat, nat), rest: seq<(nat, nat)>)
    requires Ordered(rest) && (rest != [] ==> x.1 <= rest[0].0)
    ensures Ordered([x] + rest)
  {
    var ss := [x] + rest;
    forall k | 0 <= k < |ss| - 1 ensures ss[k].1 <= ss[k + 1].0 {
      if k > 0 {
        assert ss[k] == rest[k - 1] && ss[k + 1] == rest[k];
      }
    }
  }

  /** The spans do not overlap and come in text order. */
  lemma {:induction false} SpansInOrder(t: string, i: nat)
    requires i <= |t|
    ensures Ordered(Spans(t, i))
    decreases |t| - i
  {
    if i < |t| {
      if MatchAt(t, i) {
        var e := RunEnd(t, i + SchemeAt(t, i));
        SpansInOrder(t, e);
        OrderedCons((i, e), Spans(t, e));
      } else {
        SpansInOrder(t, i + 1);
      }
    }
  }

  /** The scan finds nothing exactly when the pattern matches at no position. */
  lemma {:induction false} SpansEmpty(t: string, i: nat)
    requires i <= |t|
    ensures Spans(t, i) == [] <==> forall m :: i <= m < |t| ==> !MatchAt(t, m)
    decreases |t| - i
  {
    if i < |t| && !MatchAt(t, i) {
      SpansEmpty(t, i + 1);
    }
  }

  /** `text.match(/(https?:\/\/[^\s]+)/gi) || []`. Duplicates are kept. */
  function ExtractUrls(t: string): (urls: seq<string>)
    ensures |urls| == |Spans(t, 0)|
    ensures forall k :: 0 <= k < |urls| ==> urls[k] == t[Spans(t, 0)[k].0..Spans(t, 0)[k].1]
  {
    var ss := Spans(t, 0);
    seq(|ss|, k requires 0 <= k < |ss| => t[ss[k].0..ss[k].1])
  }

  /** Every extracted string begins with the scheme in some letter case, has at least one
      character after `//`, contains no white space and ends where the text or the run of
      non-space characters ends. */
  lemma ExtractedShape(t: string)
    ensures var urls := ExtractUrls(t);
      forall k :: 0 <= k < |urls| ==>
        && SchemeAt(urls[k], 0) > 0
        && |urls[k]| > SchemeAt(urls[k], 0)
        && (forall m :: 0 <= m < |urls[k]| ==> !Text.IsSpace(urls[k][m]))
        && (Spans(t, 0)[k].1 == |t| || Text.IsSpace(t[Spans(t, 0)[k].1]))
  {
    var urls := ExtractUrls(t);
    var ss := Spans(t, 0);
    SpansAreMaximalMatches(t, 0);
    forall k | 0 <= k < |urls|
      ensures SchemeAt(urls[k], 0) > 0 && |urls[k]| > SchemeAt(urls[k], 0)
      ensures forall m :: 0 <= m < |urls[k]| ==> !Text.IsSpace(urls[k][m])
    {
      assert MatchSpan(t, ss[k]);
      MatchShape(t, ss[k].0, ss[k].1);
    }
  }

  /** One match: the matched text starts with its scheme and holds no white space. */
  lemma MatchShape(t: string, s: nat, e: nat)
    requires s <= |t| && MatchAt(t, s) && e == RunEnd(t, s + SchemeAt(t, s))
    ensures var u := t[s..e];
      && SchemeAt(u, 0) > 0 && |u| > SchemeAt(u, 0)
      && forall m :: 0 <= m < |u| ==> !Text.IsSpace(u[m])
  {
    var u := t[s..e];
    SchemeInMatch(t, s, e);
    forall m | 0 <= m < |u| ensures !Text.IsSpace(u[m]) {
      assert u[m] == t[s + m];
    }
  }

  /** The scheme found at `s` is found again at the start of the matched text, and none
      of its characters is white space. */
  lemma SchemeInMatch(t: string, s: nat, e: nat)
    requires MatchAt(t, s) && s + SchemeAt(t, s) < e <= |t|
    ensures SchemeAt(t[s..e], 0) == SchemeAt(t, s)
    ensures forall m :: s <= m < s + SchemeAt(t, s) ==> !Text.IsSpace(t[m])
  {
    var u := t[s..e];
    assert forall m :: 0 <= m < |u| ==> u[m] == t[s + m];
    assert PrefixAt(u, 0, "https://") <==> PrefixAt(t, s, "https://");
    assert PrefixAt(u, 0, "http://") <==> PrefixAt(t, s, "http://");
    var p := if SchemeAt(t, s) == 8 then "https://" else "http://";
    forall m | s <= m < s + SchemeAt(t, s) ensures !Text.IsSpace(t[m]) {
      assert SameLetter(t[s + (m - s)], p[m - s]);
    }
  }

  /** No match anywhere is exactly what makes the result empty. */
  lemma NoMatchNoUrls(t: string)
    ensures ExtractUrls(t) == [] <==> forall m :: 0 <= m < |t| ==> !MatchAt(t, m)
  {
    SpansEmpty(t, 0);
  }
}
