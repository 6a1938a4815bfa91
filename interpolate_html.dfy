/**
  The `InterpolateHtmlPlugin` of the build service: just before the HTML page
  is emitted, every placeholder `<%= KEY %>` is replaced by the value of
  `KEY`, one key after the other. For each key the page is rewritten with
  `html.replace(new RegExp('<%=\\s*' + escaped(KEY) + '\\s*%>', 'g'), value)`;
  this module writes that regular expression, the global scan of `replace`
  and its `$` substitution patterns out by hand.
 */
module InterpolateHtml {

  import opened Wrappers
  import opened Dicts
  import opened Strings

  /** The characters `\s` matches: white space and line terminators. */
  predicate IsJsSpace(c: char) {
    (9 <= c as int <= 13) || c == ' ' || c == '\U{A0}' || c == '\U{1680}'
    || ('\U{2000}' <= c <= '\U{200A}') || c == '\U{2028}' || c == '\U{2029}'
    || c == '\U{202F}' || c == '\U{205F}' || c == '\U{3000}' || c == '\U{FEFF}'
  }

  predicate AllSpace(s: string) {
    forall i :: 0 <= i < |s| ==> IsJsSpace(s[i])
  }

  /** Where the longest run of `\s` starting at `i` ends: what a greedy `\s*` consumes. */
  function WsEnd(s: string, i: nat): (r: nat)
    requires i <= |s|
    ensures i <= r <= |s| && AllSpace(s[i..r])
    ensures r < |s| ==> !IsJsSpace(s[r])
    decreases |s| - i
  {
    if i == |s| || !IsJsSpace(s[i]) then i
    else
      var r := WsEnd(s, i + 1);
      assert forall j | 1 <= j < r - i :: s[i..r][j] == s[i + 1..r][j - 1];
      r
  }

  /** The literal key at position `k`, then `\s*%>`: the end of the match, if there is one. */
  function KeyAt(s: string, key: string, k: nat): (r: Option<nat>)
    requires k <= |s|
    ensures r.Some? ==> k + |key| + 2 <= r.value <= |s|
  {
    if k + |key| <= |s| && s[k..k + |key|] == key then
      var e := WsEnd(s, k + |key|);
      if e + 2 <= |s| && s[e..e + 2] == "%>" then Some(e + 2) else None
    else None
  }

  /**
    The backtracking of the leading `\s*`: the key is tried after as much
    white space as possible, then after one character less, down to none.
   */
  function TryKey(s: string, key: string, start: nat, k: nat): (r: Option<nat>)
    requires start <= k <= |s|
    ensures r.Some? ==> start + 2 <= r.value <= |s|
    decreases k
  {
    var hit := KeyAt(s, key, k);
    if hit.Some? then hit
    else if k == start then None
    else TryKey(s, key, start, k - 1)
  }

  /** `<%=` starts at `q`. */
  predicate OpenerAt(s: string, q: nat) {
    q + 3 <= |s| && s[q..q + 3] == "<%="
  }

  /** Where a match of the placeholder pattern that starts at `p` ends, if there is one. */
  function MatchAt(s: string, p: nat, key: string): (r: Option<nat>)
    requires p <= |s|
    ensures r.Some? ==> p + 5 <= r.value <= |s|
  {
    if OpenerAt(s, p) then TryKey(s, key, p + 3, WsEnd(s, p + 3)) else None
  }

  /**
    `<%=`, white space, the key, white space and `%>`, at `p` through `e`,
    the key starting at `k`.
   */
  predicate PlaceholderAt(s: string, p: nat, key: string, k: nat, e: nat) {
    && p + 3 <= k && k + |key| + 2 <= e <= |s|
    && OpenerAt(s, p) && AllSpace(s[p + 3..k])
    && s[k..k + |key|] == key && AllSpace(s[k + |key|..e - 2]) && s[e - 2..e] == "%>"
  }

  /**
    The replacement text for the match `s[p..e]`: `$$` is `$`, `$&` the
    match, `` $` `` the text before it, `$'` the text after it; any other
    `$` stands for itself (the pattern has no capture groups).
   */
  function Expand(value: string, s: string, p: nat, e: nat): string
    requires p <= e <= |s|
    decreases |value|
  {
    if value == [] then ""
    else if value[0] == '$' && |value| >= 2 && value[1] in "$&`'" then
      var part :=
        if value[1] == '$' then "$"
        else if value[1] == '&' then s[p..e]
        else if value[1] == '`' then s[..p]
        else s[e..];
      part + Expand(value[2..], s, p, e)
    else [value[0]] + Expand(value[1..], s, p, e)
  }

  /** The global `replace` from position `p` on: each match is replaced, and the scan resumes after it. */
  function ReplaceFrom(s: string, key: string, value: string, p: nat): string
    requires p <= |s|
    decreases |s| - p
  {
    if p == |s| then ""
    else match MatchAt(s, p, key)
      case Some(e) => Expand(value, s, p, e) + ReplaceFrom(s, key, value, e)
      case None => [s[p]] + ReplaceFrom(s, key, value, p + 1)
  }

  /** One pass: every placeholder of `key` in `html` replaced by `value`. */
  function ReplaceAll(html: string, key: string, value: string): string {
    ReplaceFrom(html, key, value, 0)
  }

  /** The passes for `keys` in order, each on the previous pass's output. */
  function ApplyAll(html: string, keys: seq<string>, vals: map<string, string>): string
    requires forall k :: k in keys ==> k in vals
    decreases |keys|
  {
    if keys == [] then html else ApplyAll(ReplaceAll(html, keys[0], vals[keys[0]]), keys[1..], vals)
  }

  // ---------------------------------------------------------------------------
  // The plugin

  /** The `data` object of the `beforeEmit` hook. */
  class HtmlData {
    var html: string

    constructor (html: string)
      ensures this.html == html
    {
      this.html := html;
    }
  }

  class InterpolateHtmlPlugin {
    const replacements: Dict<string>

    /** Keeps the replacements as given: an object, its keys in order. */
    constructor (replacements: Dict<string>)
      requires replacements.Valid()
      ensures this.replacements == replacements
    {
      this.replacements := replacements;
    }

    /** The `beforeEmit` hook: one pass per key, in key order, rewriting `data.html`. */
    method BeforeEmit(data: HtmlData)
      requires replacements.Valid()
      modifies data
      ensures data.html == ApplyAll(old(data.html), replacements.keys, replacements.vals)
    {
      var keys := replacements.keys;
      var i := 0;
      ghost var html0 := data.html;
      while i < |keys|
        invariant 0 <= i <= |keys|
        invariant data.html == ApplyAll(html0, keys[..i], replacements.vals)
      {
        var key := keys[i];
        var value := replacements.vals[key];
        ApplyAllOneMore(html0, keys, i, replacements.vals);
        data.html := ReplaceAll(data.html, key, value);
        i := i + 1;
      }
      assert keys[..|keys|] == keys;
    }
  }

  // ---------------------------------------------------------------------------
  // Properties

  /** Applying the passes for one key more is one more pass on the output so far. */
  lemma {:induction false} ApplyAllSnoc(html: string, keys: seq<string>, k: string, vals: map<string, string>)
    requires forall x :: x in keys ==> x in vals
    requires k in vals
    ensures ApplyAll(html, keys + [k], vals) == ReplaceAll(ApplyAll(html, keys, vals), k, vals[k])
    decreases |keys|
  {
    if keys == [] {
      assert [] + [k] == [k];
    } else {
      assert (keys + [k])[1..] == keys[1..] + [k];
      ApplyAllSnoc(ReplaceAll(html, keys[0], vals[keys[0]]), keys[1..], k, vals);
    }
  }

  lemma {:induction false} ApplyAllOneMore(html: string, keys: seq<string>, i: nat, vals: map<string, string>)
    requires i < |keys| && forall x :: x in keys ==> x in vals
    ensures forall x :: x in keys[..i] ==> x in vals
    ensures ApplyAll(html, keys[..i + 1], vals) == ReplaceAll(ApplyAll(html, keys[..i], vals), keys[i], vals[keys[i]])
  {
    assert keys[..i + 1] == keys[..i] + [keys[i]];
    ApplyAllSnoc(html, keys[..i], keys[i], vals);
  }

  lemma AllSpacePrefix(s: string, i: nat, j: nat, k: nat)
    requires i <= k <= j <= |s| && AllSpace(s[i..j])
    ensures AllSpace(s[i..k])
  {
    forall x | 0 <= x < k - i ensures IsJsSpace(s[i..k][x]) { assert s[i..k][x] == s[i..j][x]; }
  }

  /** A run of white space ends no later than the greedy `\s*` starting at the same place. */
  lemma {:induction false} WsEndCovers(s: string, i: nat, k: nat)
    requires i <= k <= |s| && AllSpace(s[i..k])
    ensures k <= WsEnd(s, i)
    decreases |s| - i
  {
    if i < k {
      assert IsJsSpace(s[i..k][0]);
      assert forall x | 1 <= x < k - i :: s[i..k][x] == s[i + 1..k][x - 1];
      WsEndCovers(s, i + 1, k);
    }
  }

  /** A match found by the backtracking, after `<%=` and white space, is a placeholder of the key. */
  lemma {:induction false} TryKeySound(s: string, key: string, p: nat, j: nat) returns (k: nat)
    requires p + 3 <= j <= |s| && OpenerAt(s, p) && AllSpace(s[p + 3..j])
    requires TryKey(s, key, p + 3, j).Some?
    ensures PlaceholderAt(s, p, key, k, TryKey(s, key, p + 3, j).value)
    decreases j
  {
    if KeyAt(s, key, j).Some? {
      var e := TryKey(s, key, p + 3, j).value;
      assert WsEnd(s, j + |key|) == e - 2;
      k := j;
    } else {
      AllSpacePrefix(s, p + 3, j, j - 1);
      k := TryKeySound(s, key, p, j - 1);
    }
  }

  /** Every match of the pattern is `<%=`, white space, the key itself, white space and `%>`. */
  lemma MatchSound(s: string, p: nat, key: string) returns (k: nat)
    requires p <= |s| && MatchAt(s, p, key).Some?
    ensures PlaceholderAt(s, p, key, k, MatchAt(s, p, key).value)
  {
    k := TryKeySound(s, key, p, WsEnd(s, p + 3));
  }

  /** A greedy `\s*` stops at the first character that is not white space. */
  lemma {:induction false} WsEndStops(s: string, i: nat, j: nat)
    requires i <= j < |s| && AllSpace(s[i..j]) && !IsJsSpace(s[j])
    ensures WsEnd(s, i) == j
    decreases j - i
  {
    if i < j {
      assert IsJsSpace(s[i..j][0]);
      assert forall x | 1 <= x < j - i :: s[i..j][x] == s[i + 1..j][x - 1];
      WsEndStops(s, i + 1, j);
    }
  }

  /** At the start of its key, a placeholder is matched through its `%>`. */
  lemma KeyAtPlaceholder(s: string, p: nat, key: string, k: nat, e: nat)
    requires PlaceholderAt(s, p, key, k, e)
    ensures KeyAt(s, key, k) == Some(e)
  {
    assert s[e - 2] == s[e - 2..e][0];
    WsEndStops(s, k + |key|, e - 2);
  }

  /** The backtracking reaches every position the key can start at. */
  lemma {:induction false} TryKeyComplete(s: string, key: string, p: nat, j: nat, k: nat, e: nat)
    requires p + 3 <= k <= j <= |s| && PlaceholderAt(s, p, key, k, e)
    ensures TryKey(s, key, p + 3, j).Some?
    decreases j
  {
    if j == k {
      KeyAtPlaceholder(s, p, key, k, e);
    } else if KeyAt(s, key, j).None? {
      TryKeyComplete(s, key, p, j - 1, k, e);
    }
  }

  /** Every placeholder of the key is a match of the pattern. */
  lemma MatchComplete(s: string, p: nat, key: string, k: nat, e: nat)
    requires PlaceholderAt(s, p, key, k, e)
    ensures MatchAt(s, p, key).Some?
  {
    WsEndCovers(s, p + 3, k);
    TryKeyComplete(s, key, p, WsEnd(s, p + 3), k, e);
  }
  lemma {:induction false} NotContainsNoOpener(s: string)
    requires !Contains(s, "<%=")
    ensures forall q :: 0 <= q ==> !OpenerAt(s, q)
    decreases |s|
  {
    if s != [] {
      NotContainsNoOpener(s[1..]);
      forall q | 0 <= q ensures !OpenerAt(s, q) {
        if q == 0 {
          assert !StartsWith(s, "<%=");
          assert |s| >= 3 ==> s[0..3] == s[..3];
        } else if q + 3 <= |s| {
          assert s[q..q + 3] == s[1..][q - 1..q + 2];
          assert !OpenerAt(s[1..], q - 1);
        }
      }
    }
  }

  /** Where no `<%=` starts, the scan copies the text unchanged. */
  lemma {:induction false} CopiedUpTo(s: string, key: string, value: string, q: nat, p: nat)
    requires q <= p <= |s|
    requires forall r :: q <= r < p ==> !OpenerAt(s, r)
    ensures ReplaceFrom(s, key, value, q) == s[q..p] + ReplaceFrom(s, key, value, p)
    decreases p - q
  {
    if q == p {
      assert s[q..p] == [];
    } else {
      CopiedAt(s, key, value, q);
      CopiedUpTo(s, key, value, q + 1, p);
      SliceFirst(s, q, p);
      CopiedOne(ReplaceFrom(s, key, value, q), s[q], ReplaceFrom(s, key, value, q + 1), s[q + 1..p], ReplaceFrom(s, key, value, p));
    }
  }

  lemma SliceFirst(s: string, q: nat, p: nat)
    requires q < p <= |s|
    ensures s[q..p] == [s[q]] + s[q + 1..p]
  {
  }

  /** Where no `<%=` starts, the scan copies one character and goes on after it. */
  lemma CopiedAt(s: string, key: string, value: string, q: nat)
    requires q < |s| && !OpenerAt(s, q)
    ensures ReplaceFrom(s, key, value, q) == [s[q]] + ReplaceFrom(s, key, value, q + 1)
  {
    assert MatchAt(s, q, key) == None;
  }

  lemma CopiedOne(all: string, c: char, rest: string, copied: string, tail: string)
    requires all == [c] + rest && rest == copied + tail
    ensures all == ([c] + copied) + tail
  {
    assert [c] + (copied + tail) == ([c] + copied) + tail;
  }

  /** A page without `<%=` is left unchanged by a pass. */
  lemma {:induction false} NoPlaceholderUnchanged(html: string, key: string, value: string)
    requires !Contains(html, "<%=")
    ensures ReplaceAll(html, key, value) == html
  {
    NotContainsNoOpener(html);
    CopiedUpTo(html, key, value, 0, |html|);
    assert html[0..|html|] == html;
  }

  /** A page without `<%=` is left unchanged by the plugin, whatever the replacements. */
  lemma {:induction false} NoPlaceholderApplyAll(html: string, keys: seq<string>, vals: map<string, string>)
    requires !Contains(html, "<%=") && forall k :: k in keys ==> k in vals
    ensures ApplyAll(html, keys, vals) == html
    decreases |keys|
  {
    if keys != [] {
      NoPlaceholderUnchanged(html, keys[0], vals[keys[0]]);
      NoPlaceholderApplyAll(html, keys[1..], vals);
    }
  }

  /** A value without `$` is inserted literally. */
  lemma {:induction false} ExpandLiteral(value: string, s: string, p: nat, e: nat)
    requires p <= e <= |s| && '$' !in value
    ensures Expand(value, s, p, e) == value
    decreases |value|
  {
    if value != [] {
      ExpandLiteral(value[1..], s, p, e);
      assert [value[0]] + value[1..] == value;
    }
  }

  /** Two adjoining runs of white space make one. */
  lemma {:induction false} AllSpaceJoin(s: string, i: nat, j: nat, k: nat)
    requires i <= j <= k <= |s| && AllSpace(s[i..j]) && AllSpace(s[j..k])
    ensures AllSpace(s[i..k])
  {
    forall x | 0 <= x < k - i ensures IsJsSpace(s[i..k][x]) {
      if x < j - i { assert s[i..k][x] == s[i..j][x]; } else { assert s[i..k][x] == s[j..k][x - (j - i)]; }
    }
  }

  /**
    When the key does not start with white space, the match at a placeholder
    ends exactly at its `%>`.
   */
  lemma {:induction false} MatchEndsAtPlaceholder(s: string, p: nat, key: string, k: nat, e: nat)
    requires PlaceholderAt(s, p, key, k, e)
    requires key == [] || !IsJsSpace(key[0])
    ensures MatchAt(s, p, key) == Some(e)
  {
    if key == [] {
      AllSpaceJoin(s, p + 3, k, e - 2);
      assert s[e - 2] == s[e - 2..e][0];
      WsEndStops(s, p + 3, e - 2);
      KeyAtPlaceholder(s, p, key, e - 2, e);
    } else {
      assert s[k] == s[k..k + |key|][0];
      WsEndStops(s, p + 3, k);
      KeyAtPlaceholder(s, p, key, k, e);
    }
  }

  /**
    From `q` on, the scan copies the text up to a placeholder of the key, when
    no `<%=` starts before it; there it writes the expanded value and resumes
    after the match.
   */
  lemma {:induction false} PlaceholderReplaced(s: string, key: string, value: string, q: nat, p: nat, k: nat, e: nat)
    requires q <= p && PlaceholderAt(s, p, key, k, e)
    requires forall r :: q <= r < p ==> !OpenerAt(s, r)
    ensures MatchAt(s, p, key).Some?
    ensures var m := MatchAt(s, p, key).value;
      ReplaceFrom(s, key, value, q) == s[q..p] + Expand(value, s, p, m) + ReplaceFrom(s, key, value, m)
  {
    MatchComplete(s, p, key, k, e);
    var m := MatchAt(s, p, key).value;
    CopiedUpTo(s, key, value, q, p);
    ReplacedAtMatch(s, key, value, p, m);
  }

  /**
    One pass on a page whose first `<%=` opens a placeholder of the key: the
    text before it is kept, the placeholder becomes the expanded value, and
    the scan goes on after the match.
   */
  lemma {:induction false} FirstPlaceholderReplaced(s: string, key: string, value: string, p: nat, k: nat, e: nat)
    requires PlaceholderAt(s, p, key, k, e)
    requires forall r :: 0 <= r < p ==> !OpenerAt(s, r)
    ensures MatchAt(s, p, key).Some?
    ensures var m := MatchAt(s, p, key).value;
      ReplaceAll(s, key, value) == s[..p] + Expand(value, s, p, m) + ReplaceFrom(s, key, value, m)
  {
    PlaceholderReplaced(s, key, value, 0, p, k, e);
    assert s[0..p] == s[..p];
  }

  /** A placeholder as a template writes it: `<%=`, white space, the key, white space, `%>`. */
  function Placeholder(key: string, lead: string, trail: string): string {
    "<%=" + lead + key + trail + "%>"
  }

  /** One placeholder of a page, with the white space around its key, and the text that follows it. */
  datatype Hole = Hole(lead: string, trail: string, text: string)

  /** A page of the key: the text `first`, then each hole's placeholder and its text. */
  function Page(key: string, first: string, holes: seq<Hole>): string
    decreases |holes|
  {
    if holes == [] then first
    else first + Placeholder(key, holes[0].lead, holes[0].trail) + Page(key, holes[0].text, holes[1..])
  }

  /** The same page with every placeholder replaced by `value`. */
  function Filled(value: string, first: string, holes: seq<Hole>): string
    decreases |holes|
  {
    if holes == [] then first else first + value + Filled(value, holes[0].text, holes[1..])
  }

  /** No text of the page holds `<%=`, and only white space surrounds a key. */
  predicate WellFormedPage(first: string, holes: seq<Hole>) {
    !Contains(first, "<%=") &&
    forall h | h in holes :: AllSpace(h.lead) && AllSpace(h.trail) && !Contains(h.text, "<%=")
  }

  /** Where a text without `<%=` leads the rest of the page, the page holds no opener before its end. */
  lemma {:induction false} TextHasNoOpener(s: string, q: nat, first: string, r: nat)
    requires q <= r && q + |first| <= |s| && s[q..q + |first|] == first && !Contains(first, "<%=")
    requires r + 3 <= q + |first|
    ensures !OpenerAt(s, r)
  {
    NotContainsNoOpener(first);
    assert !OpenerAt(first, r - q);
    var a, b := first[r - q..r - q + 3], s[r..r + 3];
    assert a == b by {
      forall i | 0 <= i < 3 ensures a[i] == b[i] {
        assert first[r - q + i] == s[q..q + |first|][r - q + i];
      }
    }
  }

  /** The three parts of a text that follows position `q`. */
  lemma {:induction false} SplitThree(s: string, q: nat, a: string, b: string, c: string)
    requires q <= |s| && s[q..] == a + b + c
    ensures q + |a| + |b| <= |s|
    ensures s[q..q + |a|] == a && s[q + |a|..q + |a| + |b|] == b && s[q + |a| + |b|..] == c
  {
    var t := s[q..];
    assert s[q..q + |a|] == t[..|a|];
    assert s[q + |a|..q + |a| + |b|] == t[|a|..|a| + |b|];
    assert s[q + |a| + |b|..] == t[|a| + |b|..];
  }

  /** A placeholder written at `p` is one in the sense of `PlaceholderAt`. */
  lemma {:induction false} PlaceholderShape(s: string, p: nat, key: string, lead: string, trail: string)
    requires p + |Placeholder(key, lead, trail)| <= |s| && s[p..p + |Placeholder(key, lead, trail)|] == Placeholder(key, lead, trail)
    requires AllSpace(lead) && AllSpace(trail)
    ensures var k := p + 3 + |lead|; PlaceholderAt(s, p, key, k, k + |key| + |trail| + 2)
  {
    var k := p + 3 + |lead|;
    var e := k + |key| + |trail| + 2;
    var t := s[p..e];
    assert s[p..p + 3] == t[..3];
    assert s[p + 3..k] == t[3..3 + |lead|];
    assert s[k..k + |key|] == t[3 + |lead|..3 + |lead| + |key|];
    assert s[k + |key|..e - 2] == t[3 + |lead| + |key|..e - p - 2];
    assert s[e - 2..e] == t[e - p - 2..];
  }

  /** The placeholder that follows the first text of a page, and the rest of the page after it. */
  lemma {:induction false} PlaceholderInPage(s: string, q: nat, key: string, first: string, lead: string, trail: string, rest: string)
    requires q <= |s| && s[q..] == first + Placeholder(key, lead, trail) + rest
    requires AllSpace(lead) && AllSpace(trail)
    ensures var p := q + |first|; var k := p + 3 + |lead|; var e := k + |key| + |trail| + 2;
      && e <= |s| && PlaceholderAt(s, p, key, k, e)
      && s[q..p] == first && s[e..] == rest
  {
    SplitThree(s, q, first, Placeholder(key, lead, trail), rest);
    PlaceholderShape(s, q + |first|, key, lead, trail);
  }

  /** A text without `<%=` that ends the page is copied unchanged. */
  lemma {:induction false} LastTextCopied(s: string, key: string, value: string, q: nat, text: string)
    requires q <= |s| && s[q..] == text && !Contains(text, "<%=")
    ensures ReplaceFrom(s, key, value, q) == text
  {
    forall r | q <= r < |s| ensures !OpenerAt(s, r) {
      if r + 3 <= |s| { TextHasNoOpener(s, q, text, r); }
    }
    CopiedUpTo(s, key, value, q, |s|);
  }

  /** A text without `<%=` followed by `<%` holds no opener; nor does the text's last two characters and the `<%`. */
  lemma {:induction false} NoOpenerBefore(s: string, q: nat, first: string)
    requires q + |first| + 2 <= |s| && s[q..q + |first|] == first && !Contains(first, "<%=")
    requires s[q + |first|] == '<' && s[q + |first| + 1] == '%'
    ensures forall r :: q <= r < q + |first| ==> !OpenerAt(s, r)
  {
    var p := q + |first|;
    forall r | q <= r < p ensures !OpenerAt(s, r) {
      if r + 3 <= p { TextHasNoOpener(s, q, first, r); }
      else if r + 2 == p { assert s[r..r + 3][2] == s[p]; }
      else { assert s[r..r + 3][1] == s[p]; }
    }
  }

  /**
    A text without `<%=` followed by a placeholder of the key: the text is
    copied, the placeholder becomes the value, and the scan resumes after it.
   */
  lemma {:induction false} FirstHoleFilled(s: string, key: string, value: string, q: nat, first: string, p: nat, k: nat, e: nat)
    requires PlaceholderAt(s, p, key, k, e)
    requires p == q + |first| && s[q..p] == first && !Contains(first, "<%=")
    requires key == [] || !IsJsSpace(key[0])
    requires '$' !in value
    ensures ReplaceFrom(s, key, value, q) == first + value + ReplaceFrom(s, key, value, e)
  {
    assert s[p] == s[p..p + 3][0] && s[p + 1] == s[p..p + 3][1];
    NoOpenerBefore(s, q, first);
    MatchEndsAtPlaceholder(s, p, key, k, e);
    PlaceholderReplaced(s, key, value, q, p, k, e);
    ExpandLiteral(value, s, p, e);
  }

  /** The same, for the first text and placeholder of a page: the scan resumes where `rest` starts. */
  lemma {:induction false} HoleInPageFilled(s: string, key: string, value: string, q: nat, first: string,
                                            lead: string, trail: string, rest: string) returns (e: nat)
    requires q <= |s| && s[q..] == first + Placeholder(key, lead, trail) + rest
    requires !Contains(first, "<%=") && AllSpace(lead) && AllSpace(trail)
    requires key == [] || !IsJsSpace(key[0])
    requires '$' !in value
    ensures e <= |s| && s[e..] == rest
    ensures ReplaceFrom(s, key, value, q) == first + value + ReplaceFrom(s, key, value, e)
  {
    var p := q + |first|;
    var k := p + 3 + |lead|;
    e := k + |key| + |trail| + 2;
    PlaceholderInPage(s, q, key, first, lead, trail, rest);
    FirstHoleFilled(s, key, value, q, first, p, k, e);
  }

  /**
    A pass of the key over a well-formed page, from the page's start at `q`
    on, writes the page with every placeholder replaced by the value. The
    key is taken not to start with white space, and the value to hold no
    `$`.
   */
  lemma {:induction false} PageFrom(s: string, key: string, value: string, q: nat, first: string, holes: seq<Hole>)
    requires q <= |s| && s[q..] == Page(key, first, holes) && WellFormedPage(first, holes)
    requires key == [] || !IsJsSpace(key[0])
    requires '$' !in value
    ensures ReplaceFrom(s, key, value, q) == Filled(value, first, holes)
    decreases |holes|
  {
    if holes == [] {
      LastTextCopied(s, key, value, q, first);
    } else {
      var h := holes[0];
      assert h in holes;
      var e := HoleInPageFilled(s, key, value, q, first, h.lead, h.trail, Page(key, h.text, holes[1..]));
      assert WellFormedPage(h.text, holes[1..]) by {
        forall g | g in holes[1..] ensures g in holes { }
      }
      PageFrom(s, key, value, e, h.text, holes[1..]);
    }
  }

  /**
    One pass of the key over a well-formed page replaces every placeholder
    `<%= KEY %>`, whatever white space surrounds the key, by the value, and
    changes nothing else.
   */
  lemma {:induction false} PageReplaced(key: string, value: string, first: string, holes: seq<Hole>)
    requires WellFormedPage(first, holes)
    requires key == [] || !IsJsSpace(key[0])
    requires '$' !in value
    ensures ReplaceAll(Page(key, first, holes), key, value) == Filled(value, first, holes)
  {
    var s := Page(key, first, holes);
    assert s[0..] == s;
    PageFrom(s, key, value, 0, first, holes);
  }

  /** A single placeholder `<%= KEY %>` between two texts without `<%=` becomes the value. */
  lemma {:induction false} SinglePlaceholder(pre: string, key: string, lead: string, trail: string, value: string, post: string)
    requires !Contains(pre, "<%=") && !Contains(post, "<%=") && AllSpace(lead) && AllSpace(trail)
    requires key == [] || !IsJsSpace(key[0])
    requires '$' !in value
    ensures ReplaceAll(pre + Placeholder(key, lead, trail) + post, key, value) == pre + value + post
  {
    var holes := [Hole(lead, trail, post)];
    assert holes[1..] == [];
    assert Page(key, pre, holes) == pre + Placeholder(key, lead, trail) + post;
    assert Filled(value, pre, holes) == pre + value + post;
    PageReplaced(key, value, pre, holes);
  }

  /** At a match the scan writes the replacement and resumes after the match. */
  lemma {:induction false} ReplacedAtMatch(s: string, key: string, value: string, p: nat, e: nat)
    requires p <= |s| && MatchAt(s, p, key) == Some(e)
    ensures ReplaceFrom(s, key, value, p) == Expand(value, s, p, e) + ReplaceFrom(s, key, value, e)
  {
  }
}
