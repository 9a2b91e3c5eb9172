/**
 * What an airport update does with the weather service's answers: the
 * request URL, the extraction
 * `re.search("<flight_category>(.*)</flight_category>", text).group(1)`,
 * and the primary-then-alternate resolution of the flight category.
 */
module Metar {
  import opened Wrappers
  import opened Categories

  const OPEN: string := "<flight_category>"
  const CLOSE: string := "</flight_category>"
  const URL_HEAD: string := "https://aviationweather.gov/api/data/metar?ids="
  const URL_TAIL: string := "&format=xml"

  /** The METAR request URL for an airport code. */
  function MetarUrl(code: string): string
  {
    URL_HEAD + code + URL_TAIL
  }

  /** Different airport codes are requested at different URLs. */
  lemma MetarUrlInjective(c1: string, c2: string)
    requires MetarUrl(c1) == MetarUrl(c2)
    ensures c1 == c2
  {
    var u := MetarUrl(c1);
    assert |c1| == |c2|;
    assert c1 == u[|URL_HEAD|..|URL_HEAD| + |c1|];
    assert c2 == MetarUrl(c2)[|URL_HEAD|..|URL_HEAD| + |c2|];
  }

  /** The outcome of one `requests_session.get`: a response body, or an exception. */
  datatype Fetch = Body(text: string) | TransportError

  /** `pat` occurs in `s` at index `i`. */
  predicate At(s: string, i: int, pat: string)
  {
    0 <= i && i + |pat| <= |s| && s[i..i + |pat|] == pat
  }

  /** No newline in `s[a..b]`: the regex `.` matches every character but `\n`. */
  predicate SameLine(s: string, a: int, b: int)
    requires 0 <= a <= b <= |s|
  {
    forall k :: a <= k < b ==> s[k] != '\n'
  }

  /** The pattern matches with the opening tag at `i` and the closing tag at `j`. */
  predicate MatchAt(s: string, i: int, j: int)
  {
    At(s, i, OPEN) && i + |OPEN| <= j && At(s, j, CLOSE) && SameLine(s, i + |OPEN|, j)
  }

  /** The match `re.search` reports: the leftmost start, and for it the
      longest `.*` (greedy), i.e. the last closing tag on that line. */
  ghost predicate SearchMatch(s: string, i: int, j: int)
  {
    && MatchAt(s, i, j)
    && (forall i', j' :: MatchAt(s, i', j') ==> i <= i')
    && (forall j' :: MatchAt(s, i, j') ==> j' <= j)
  }

  /** The first newline at or after `a`, or the end of the text. */
  function LineEnd(s: string, a: nat): (e: nat)
    requires a <= |s|
    ensures a <= e <= |s|
    decreases |s| - a
  {
    if a == |s| || s[a] == '\n' then a else LineEnd(s, a + 1)
  }

  /** The line from `a` runs up to a newline or to the end of the text. */
  lemma {:induction false} LineEndSpec(s: string, a: nat)
    requires a <= |s|
    ensures SameLine(s, a, LineEnd(s, a))
    ensures LineEnd(s, a) < |s| ==> s[LineEnd(s, a)] == '\n'
    decreases |s| - a
  {
    if a < |s| && s[a] != '\n' {
      LineEndSpec(s, a + 1);
    }
  }

  /** The last closing tag starting in `[a, j]`. */
  function LastClose(s: string, a: nat, j: nat): (r: Option<nat>)
    requires a <= j
    ensures r.Some? ==> a <= r.value <= j
    decreases j - a
  {
    if At(s, j, CLOSE) then Some(j)
    else if j == a then None
    else LastClose(s, a, j - 1)
  }

  /** LastClose finds a closing tag with none after it in the range, or
      reports that the range holds none. */
  lemma {:induction false} LastCloseSpec(s: string, a: nat, j: nat)
    requires a <= j
    ensures var r := LastClose(s, a, j);
      && (r.Some? ==> At(s, r.value, CLOSE) && forall j' :: r.value < j' <= j ==> !At(s, j', CLOSE))
      && (r.None? ==> forall j' :: a <= j' <= j ==> !At(s, j', CLOSE))
    decreases j - a
  {
    if !At(s, j, CLOSE) && j > a {
      LastCloseSpec(s, a, j - 1);
    }
  }

  /** For an opening tag at `i`: the end of the longest match starting there, if any. */
  function CloseFor(s: string, i: nat): (r: Option<nat>)
    requires At(s, i, OPEN)
    ensures r.Some? ==> i + |OPEN| <= r.value <= |s|
  {
    var a := i + |OPEN|;
    LastClose(s, a, LineEnd(s, a))
  }

  /** CloseFor gives the match from `i` with the last closing tag, or there
      is no match from `i`. */
  lemma CloseForSpec(s: string, i: nat)
    requires At(s, i, OPEN)
    ensures var r := CloseFor(s, i);
      && (r.Some? ==> MatchAt(s, i, r.value) && forall j' :: MatchAt(s, i, j') ==> j' <= r.value)
      && (r.None? ==> forall j' :: !MatchAt(s, i, j'))
  {
    var a := i + |OPEN|;
    var e := LineEnd(s, a);
    LineEndSpec(s, a);
    LastCloseSpec(s, a, e);
    assert forall j' :: MatchAt(s, i, j') ==> j' <= e;
  }

  /** The leftmost match whose opening tag is at or after `i`. */
  function Search(s: string, i: nat): (r: Option<(nat, nat)>)
    requires i <= |s|
    ensures r.Some? ==> i <= r.value.0 && r.value.0 + |OPEN| <= r.value.1 <= |s|
    decreases |s| - i
  {
    if i == |s| then None
    else if At(s, i, OPEN) && CloseFor(s, i).Some? then Some((i, CloseFor(s, i).value))
    else Search(s, i + 1)
  }

  /** Search finds the leftmost opening tag that has a match, with its
      longest match, or reports that no match starts at or after `i`. */
  lemma {:induction false} SearchSpec(s: string, i: nat)
    requires i <= |s|
    ensures var r := Search(s, i);
      && (r.Some? ==> MatchAt(s, r.value.0, r.value.1))
      && (r.Some? ==> forall i', j' :: i <= i' && MatchAt(s, i', j') ==> r.value.0 <= i')
      && (r.Some? ==> forall j' :: MatchAt(s, r.value.0, j') ==> j' <= r.value.1)
      && (r.None? ==> forall i', j' :: i <= i' && MatchAt(s, i', j') ==> false)
    decreases |s| - i
  {
    if i < |s| {
      if At(s, i, OPEN) {
        CloseForSpec(s, i);
      }
      if !(At(s, i, OPEN) && CloseFor(s, i).Some?) {
        SearchSpec(s, i + 1);
      }
    }
  }

  /** `re.search(...)` followed by `.group(1)`: the captured text, or `None`
      where `.group` would be called on no match and raise. */
  function Extract(s: string): (r: Option<string>)
  {
    match Search(s, 0)
    case None => None
    case Some((i, j)) => Some(s[i + |OPEN|..j])
  }

  /** Extract fails exactly when the pattern does not occur, and otherwise
      gives the text between the tags of the match `re.search` reports. */
  lemma ExtractSpec(s: string)
    ensures Extract(s).None? <==> forall i, j :: !MatchAt(s, i, j)
    ensures Extract(s).Some? ==>
      exists i, j :: SearchMatch(s, i, j) && Extract(s).value == s[i + |OPEN|..j]
  {
    SearchSpec(s, 0);
    if Search(s, 0).Some? {
      var (i, j) := Search(s, 0).value;
      assert SearchMatch(s, i, j);
    }
  }

  /** A body that opens with the tag, closes with the tag and has no newline
      in between: the capture is everything between the outer tags. */
  lemma ExtractWhole(v: string)
    requires forall k :: 0 <= k < |v| ==> v[k] != '\n'
    ensures Extract(OPEN + v + CLOSE) == Some(v)
  {
    var s := OPEN + v + CLOSE;
    var j := |OPEN| + |v|;
    assert s[..|OPEN|] == OPEN && s[j..j + |CLOSE|] == CLOSE && s[|OPEN|..j] == v;
    assert MatchAt(s, 0, j);
    ExtractSpec(s);
    var i0, j0 :| SearchMatch(s, i0, j0) && Extract(s).value == s[i0 + |OPEN|..j0];
    assert i0 == 0;
    assert j0 == j by {
      assert j <= j0;
      assert j0 + |CLOSE| <= |s|;
    }
  }

  /** Neither tag holds a newline. */
  lemma TagsOneLine()
    ensures forall k :: 0 <= k < |OPEN| ==> OPEN[k] != '\n'
    ensures forall k :: 0 <= k < |CLOSE| ==> CLOSE[k] != '\n'
  {
  }

  /** Two tag pairs on one line: the greedy `.*` captures from the first
      opening tag to the last closing tag. */
  lemma ExtractGreedy(v: string, w: string)
    requires forall k :: 0 <= k < |v| ==> v[k] != '\n'
    requires forall k :: 0 <= k < |w| ==> w[k] != '\n'
    ensures Extract(OPEN + v + CLOSE + OPEN + w + CLOSE) == Some(v + CLOSE + OPEN + w)
  {
    var mid := v + CLOSE + OPEN + w;
    TagsOneLine();
    assert forall k :: 0 <= k < |mid| ==> mid[k] != '\n' by {
      forall k | 0 <= k < |mid| ensures mid[k] != '\n' {
        if k < |v| {
          assert mid[k] == v[k];
        } else if k < |v| + |CLOSE| {
          assert mid[k] == CLOSE[k - |v|];
        } else if k < |v| + |CLOSE| + |OPEN| {
          assert mid[k] == OPEN[k - |v| - |CLOSE|];
        } else {
          assert mid[k] == w[k - |v| - |CLOSE| - |OPEN|];
        }
      }
    }
    ExtractWhole(mid);
    assert OPEN + mid + CLOSE == OPEN + v + CLOSE + OPEN + w + CLOSE;
  }

  /** The two-report case in figures: the capture is not a category name. */
  lemma GreedyIsUnknown()
    ensures Extract(OPEN + "VFR" + CLOSE + OPEN + "IFR" + CLOSE).Some?
    ensures FromString(Extract(OPEN + "VFR" + CLOSE + OPEN + "IFR" + CLOSE).value) == Unknown
  {
    ExtractGreedy("VFR", "IFR");
    var cap := "VFR" + CLOSE + OPEN + "IFR";
    FromStringSpec(cap);
    assert |cap| > 4;
  }

  /** The category one request yields, or `None` where the source raises
      (the request failed, or the body has no tag pair). */
  function Read(f: Fetch): Option<Category>
  {
    match f
    case TransportError => None
    case Body(text) =>
      match Extract(text)
      case None => None
      case Some(name) => Some(FromString(name))
  }

  /** No category exactly when the request raised or the pattern does not occur. */
  lemma ReadSpec(f: Fetch)
    ensures Read(f).None? <==> f.TransportError? || forall i, j :: !MatchAt(f.text, i, j)
  {
    if f.Body? {
      ExtractSpec(f.text);
    }
  }

  /** The primary answer sends the update to the alternate airport: it raised,
      or it parsed to UNKNOWN (which the source turns into a raise). */
  predicate NeedsAlternate(primary: Fetch)
  {
    Read(primary).None? || Read(primary).value == Unknown
  }

  /** The category an update settles on, given the answers to the primary
      request and (if it is made) to the alternate request. */
  function Resolve(primary: Fetch, alternate: Fetch): (c: Category)
    ensures !NeedsAlternate(primary) ==> Some(c) == Read(primary) && c != Unknown
    ensures NeedsAlternate(primary) && Read(alternate).None? ==> c == Unknown
    ensures NeedsAlternate(primary) && Read(alternate).Some? ==> c == Read(alternate).value
  {
    if !NeedsAlternate(primary) then Read(primary).value
    else match Read(alternate)
      case None => Unknown
      case Some(c) => c
  }

  /** Scenario: the primary body has no tag and the alternate reports VFR. */
  lemma FallbackToAlternate(primaryText: string)
    requires forall i, j :: !MatchAt(primaryText, i, j)
    ensures NeedsAlternate(Body(primaryText))
    ensures Resolve(Body(primaryText), Body(OPEN + "VFR" + CLOSE)) == VFR
  {
    ReadSpec(Body(primaryText));
    ExtractWhole("VFR");
    FromStringName(VFR);
  }

  /** The result is UNKNOWN exactly when neither airport gave a known category. */
  lemma ResolveUnknown(primary: Fetch, alternate: Fetch)
    ensures Resolve(primary, alternate) == Unknown
        <==> NeedsAlternate(primary) && (Read(alternate).None? || Read(alternate).value == Unknown)
  {
  }

  /** When the primary answers with a known category, the alternate's answer is irrelevant. */
  lemma AlternateIgnored(primary: Fetch, a1: Fetch, a2: Fetch)
    requires !NeedsAlternate(primary)
    ensures Resolve(primary, a1) == Resolve(primary, a2)
  {
  }
}
