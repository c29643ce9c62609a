/** ExtractValue of auto-netaccess.c: recover the value of a hidden form
    field `name="<name>" value="..."` from the HTML of a page. */
module HiddenField {
  import opened Text

  /** The text ExtractValue formats before searching. */
  function FullPattern(name: string): string {
    "name=\"" + name + "\" value=\""
  }

  /** The pattern as it lands in the 256-byte buffer `pattern`. */
  function Pattern(name: string): (r: string)
    ensures r <= FullPattern(name) && |r| <= 255
    ensures |name| <= 240 ==> r == FullPattern(name)
    ensures |name| > 240 ==> |r| == 255
  {
    Truncate(FullPattern(name), 256)
  }

  /** `v` is the text between the end of the leftmost occurrence of `pat`,
      at `i`, and the first `"` after it. */
  ghost predicate Delimits(html: string, pat: string, i: int, v: string) {
    FirstAt(html, pat, i) && '"' !in v && OccursAt(html, v + ['"'], i + |pat|)
  }

  /** The value of field `name` in `html`, or NULL (None) when the pattern
      does not occur or no `"` follows it. */
  function ExtractValue(html: string, name: string): (r: Option<string>)
    ensures r.Some? ==> '"' !in r.value
    ensures r.Some? ==> exists i :: Delimits(html, Pattern(name), i, r.value)
    ensures r.None? ==> forall i :: FirstAt(html, Pattern(name), i) ==> '"' !in html[i + |Pattern(name)|..]
  {
    var pat := Pattern(name);
    match StrStr(html, pat)
    case None => None
    case Some(i) =>
      var start := i + |pat|;
      match StrChrFrom(html, '"', start)
      case None => None
      case Some(e) =>
        var v := html[start..e];
        assert html[start..e + 1] == html[start..e] + [html[e]];
        assert Delimits(html, pat, i, v);
        Some(v)
  }

  /** The leftmost occurrence is unique. */
  lemma FirstAtUnique(s: string, p: string, i: int, j: int)
    requires FirstAt(s, p, i) && FirstAt(s, p, j)
    ensures i == j
  {
  }

  /** No occurrence of the pattern: no value. */
  lemma ExtractAbsent(html: string, name: string)
    requires !Contains(html, Pattern(name))
    ensures ExtractValue(html, name) == None
  {

  }

  /** The pattern occurs but no `"` follows its leftmost occurrence
      (malformed markup): no value, and no read past the text. */
  lemma ExtractUnterminated(html: string, name: string, i: int)
    requires FirstAt(html, Pattern(name), i)
    requires '"' !in html[i + |Pattern(name)|..]
    ensures ExtractValue(html, name) == None
  {

  }

  /** A field written out as `name="X" value="V"`, with no earlier occurrence
      of the pattern, is read back as exactly V when V holds no `"`. */
  lemma ExtractRoundTrip(pre: string, name: string, v: string, post: string)
    requires |name| <= 240 && '"' !in v
    requires forall j :: 0 <= j < |pre| ==> !OccursAt(pre + FullPattern(name) + v + ['"'] + post, FullPattern(name), j)
    ensures ExtractValue(pre + FullPattern(name) + v + ['"'] + post, name) == Some(v)
  {
    var pat := FullPattern(name);
    var html := pre + pat + v + ['"'] + post;
    var start := |pre| + |pat|;
    assert html[|pre|..start] == pat;
    assert FirstAt(html, pat, |pre|);
    assert html[start..start + |v| + 1] == v + ['"'];
    assert html[start..][|v|] == '"';
    var r := ExtractValue(html, name);
    var k :| Delimits(html, pat, k, r.value);
    FirstAtUnique(html, pat, |pre|, k);
    QuoteEnds(html, start, r.value);
    QuoteEnds(html, start, v);
    assert |r.value| == |v|;
  }

  /** A quote-free text followed by `"` at `start` runs exactly up to the
      first `"` at or after `start`. */
  lemma QuoteEnds(s: string, start: int, v: string)
    requires '"' !in v && OccursAt(s, v + ['"'], start)
    ensures v == s[start..start + |v|] && s[start + |v|] == '"'
    ensures forall k :: start <= k < start + |v| ==> s[k] != '"'
  {
    assert s[start..start + |v| + 1] == v + ['"'];
    assert s[start..start + |v|] == s[start..start + |v| + 1][..|v|] == (v + ['"'])[..|v|] == v;
    assert s[start + |v|] == (v + ['"'])[|v|];
    forall k | start <= k < start + |v|
      ensures s[k] != '"'
    {
      assert s[k] == v[k - start];
    }
  }
}
