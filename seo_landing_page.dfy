/** The SEO landing page: the slug it derives from the route, the page and
    case study it loads, which screen it shows, and the label it prints for
    each case-study metric. The remote case-study service is the parameter
    `fetch`: what `getById` would have answered had it been called. */
module SeoLandingPage {
  import opened JsValues
  import opened JsStrings
  import opened Seqs
  import opened SeoLandingPagesService

  /** `location.pathname.replace('/', '')`: a string pattern, so only the
      first slash goes. */
  function SlugOf(pathname: string): (slug: string)
    ensures |pathname| > 0 && pathname[0] == '/' ==> slug == pathname[1..]
    ensures '/' !in pathname ==> slug == pathname
    ensures '/' in pathname ==> |slug| == |pathname| - 1
  {
    RemoveFirst(pathname, '/')
  }

  /** Only the first slash of a nested path is dropped: the slug of `/a/b` is `a/b`. */
  lemma SlugKeepsLaterSlashes(a: string, b: string)
    requires '/' !in a
    ensures SlugOf(a + "/" + b) == a + b
  {
    var s := a + "/" + b;
    assert s[..|a|] == a;
    RemoveFirstAt(s, '/', |a|);
    assert s[|a| + 1..] == b;
  }

  predicate IsCapital(c: char)
  {
    'A' <= c <= 'Z'
  }

  /** `key.replace(/([A-Z])/g, ' $1')`: a space before every capital letter. */
  function SpaceBeforeCapitals(key: string): (r: string)
    ensures |r| == |key| + |Filter(key, IsCapital)|
    ensures forall c :: c in r ==> c in key || c == ' '
    ensures forall i :: 0 <= i < |r| && IsCapital(r[i]) ==> 0 < i && r[i - 1] == ' '
  {
    if key == [] then []
    else
      var head := if IsCapital(key[0]) then [' ', key[0]] else [key[0]];
      var rest := SpaceBeforeCapitals(key[1..]);
      assert forall i :: |head| <= i < |head + rest| ==> (head + rest)[i] == rest[i - |head|];
      head + rest
  }

  /** One character at a time: a capital gets a space in front, anything
      else is copied. */
  lemma SpaceBeforeOneCharacter(c: char)
    ensures SpaceBeforeCapitals([c]) == if IsCapital(c) then [' ', c] else [c]
  {
    assert [c][1..] == [];
  }

  /** The replacement works piece by piece: the spaced form of a
      concatenation is the concatenation of the spaced forms. */
  lemma {:induction false} SpaceBeforeCapitalsAppend(a: string, b: string)
    ensures SpaceBeforeCapitals(a + b) == SpaceBeforeCapitals(a) + SpaceBeforeCapitals(b)
  {
    if a == [] {
      assert a + b == b;
    } else {
      var head := if IsCapital(a[0]) then [' ', a[0]] else [a[0]];
      assert (a + b)[0] == a[0];
      assert (a + b)[1..] == a[1..] + b;
      SpaceBeforeCapitalsAppend(a[1..], b);
      var x, y := SpaceBeforeCapitals(a[1..]), SpaceBeforeCapitals(b);
      calc {
        SpaceBeforeCapitals(a + b);
        head + SpaceBeforeCapitals(a[1..] + b);
        head + (x + y);
        { assert head + (x + y) == (head + x) + y; }
        (head + x) + y;
        SpaceBeforeCapitals(a) + y;
      }
    }
  }

  /** Every capital after the first position has a space right before it. */
  predicate SpacedBeforeCapitals(s: string)
  {
    forall i :: 0 < i < |s| && IsCapital(s[i]) ==> s[i - 1] == ' '
  }

  lemma SliceKeepsSpacing(s: string, start: nat, len: nat)
    requires start + len <= |s| && SpacedBeforeCapitals(s)
    ensures SpacedBeforeCapitals(s[start..start + len])
  {
    var t := s[start..start + len];
    forall i | 0 < i < |t| && IsCapital(t[i]) ensures t[i - 1] == ' ' {
      assert t[i] == s[start + i] && t[i - 1] == s[start + i - 1];
    }
  }

  /** The label shown for a metric key: `key.replace(/([A-Z])/g, ' $1').trim()`. */
  function MetricLabel(key: string): (shown: string)
    ensures IsTrimmed(shown)
    ensures forall c :: c in shown ==> c in key || c == ' '
    ensures forall i :: 0 < i < |shown| && IsCapital(shown[i]) ==> shown[i - 1] == ' '
  {
    var spaced := SpaceBeforeCapitals(key);
    TrimIsSlice(spaced);
    SliceKeepsSpacing(spaced, |spaced| - |TrimStart(spaced)|, |Trim(spaced)|);
    Trim(spaced)
  }

  /** A character `trim` keeps wherever it stands. */
  predicate IsVisible(c: char)
  {
    !IsSpace(c)
  }

  lemma FilterBlank(s: string)
    requires IsBlank(s)
    ensures Filter(s, IsVisible) == []
  {
  }

  /** Inserting the spaces adds nothing but spaces. */
  lemma {:induction false} SpacesAreAllThatIsAdded(key: string)
    ensures Filter(SpaceBeforeCapitals(key), IsVisible) == Filter(key, IsVisible)
  {
    if key != [] {
      var head := if IsCapital(key[0]) then [' ', key[0]] else [key[0]];
      SpacesAreAllThatIsAdded(key[1..]);
      FilterAppend(head, SpaceBeforeCapitals(key[1..]), IsVisible);
      FilterAppend([key[0]], key[1..], IsVisible);
      assert [key[0]] + key[1..] == key;
      if IsCapital(key[0]) {
        FilterAppend([' '], [key[0]], IsVisible);
        assert [' '] + [key[0]] == head;
        FilterBlank([' ']);
      }
    }
  }

  lemma TrimStartKeepsVisible(s: string)
    ensures Filter(TrimStart(s), IsVisible) == Filter(s, IsVisible)
  {
    var t := TrimStart(s);
    var blank := s[..|s| - |t|];
    assert s == blank + t;
    FilterAppend(blank, t, IsVisible);
    FilterBlank(blank);
  }

  lemma TrimEndKeepsVisible(s: string)
    ensures Filter(TrimEnd(s), IsVisible) == Filter(s, IsVisible)
  {
    var t := TrimEnd(s);
    var blank := s[|t|..];
    assert s == t + blank;
    FilterAppend(t, blank, IsVisible);
    FilterBlank(blank);
  }

  /** `trim` removes whitespace only. */
  lemma TrimKeepsVisible(s: string)
    ensures Filter(Trim(s), IsVisible) == Filter(s, IsVisible)
  {
    TrimStartKeepsVisible(s);
    TrimEndKeepsVisible(TrimStart(s));
  }

  /** The label is the key with whitespace moved about: reading only the
      non-whitespace characters, label and key agree. */
  lemma MetricLabelKeepsKey(key: string)
    ensures Filter(MetricLabel(key), IsVisible) == Filter(key, IsVisible)
  {
    TrimKeepsVisible(SpaceBeforeCapitals(key));
    SpacesAreAllThatIsAdded(key);
  }

  /** A key without whitespace can be read back from its label by dropping
      the spaces. */
  lemma MetricLabelRoundTrip(key: string)
    requires forall i :: 0 <= i < |key| ==> IsVisible(key[i])
    ensures Filter(MetricLabel(key), IsVisible) == key
  {
    MetricLabelKeepsKey(key);
    FilterAllPass(key, IsVisible);
  }

  lemma {:induction false} NoCapitalsNoSpaces(key: string)
    requires forall i :: 0 <= i < |key| ==> !IsCapital(key[i])
    ensures SpaceBeforeCapitals(key) == key
  {
    if key != [] {
      NoCapitalsNoSpaces(key[1..]);
      assert [key[0]] + key[1..] == key;
    }
  }

  /** A lower-case key such as `revenue` is its own label. */
  lemma MetricLabelOfLowerCase(key: string)
    requires forall i :: 0 <= i < |key| ==> !IsCapital(key[i])
    requires IsTrimmed(key)
    ensures MetricLabel(key) == key
  {
    NoCapitalsNoSpaces(key);
  }

  /** The space inserted before a leading capital is trimmed away again:
      `PatientVisits` labels as `Patient Visits`, not ` Patient Visits`. */
  lemma MetricLabelLeadingCapital(key: string)
    requires |key| > 0 && IsCapital(key[0])
    ensures MetricLabel(key) == Trim([key[0]] + SpaceBeforeCapitals(key[1..]))
  {
    assert SpaceBeforeCapitals(key) == [' '] + ([key[0]] + SpaceBeforeCapitals(key[1..]));
    TrimLeadingSpace(' ', [key[0]] + SpaceBeforeCapitals(key[1..]));
  }

  /** What `caseStudiesService.getById` answers: the record, or a thrown
      error (it throws when the record is missing). */
  datatype CaseStudyFetch = Fetched(study: Fields) | FetchFailed

  /** What the component renders. */
  datatype Screen =
    | LoadingScreen
    | ErrorScreen(message: string)
    | PageScreen(page: Record, caseStudy: Option<Fields>)

  class SeoLandingPageView {
    var pageData: Option<Record>
    var caseStudy: Option<Fields>
    var loading: bool
    var error: Option<string>

    constructor ()
      ensures pageData == None && caseStudy == None && loading && error == None
    {
      pageData := None;
      caseStudy := None;
      loading := true;
      error := None;
    }

    /** The three early returns of the render, in their order. */
    function View(): (s: Screen)
      reads this
      ensures s.LoadingScreen? <==> loading
      ensures !loading && error.Some? ==> s == ErrorScreen(error.value)
      ensures !loading && error.None? && pageData.None? ==> s == ErrorScreen("Page not found")
      ensures s.PageScreen? ==> pageData == Some(s.page) && s.caseStudy == caseStudy
    {
      if loading then LoadingScreen
      else if error.Some? then ErrorScreen(error.value)
      else if pageData.None? then ErrorScreen("Page not found")
      else PageScreen(pageData.value, caseStudy)
    }

    /** `loadPageData` for the route `pathname`. Returns whether the case
        study service was called. A page without `caseStudyId` leaves the
        previous `caseStudy` in place. */
    method LoadPageData(store: SeoStore, pathname: string, fetch: CaseStudyFetch) returns (fetched: bool)
      modifies this
      ensures !loading
      ensures var found := FindFirst(store.data, SlugIs(SlugOf(pathname)));
        found.None? ==>
          && !fetched && error == Some("Page not found")
          && pageData == old(pageData) && caseStudy == old(caseStudy)
          && View() == ErrorScreen("Page not found")
      ensures var found := FindFirst(store.data, SlugIs(SlugOf(pathname)));
        found.Some? ==>
          && pageData == Some(store.data[found.value])
          && (fetched <==> Truthy(Get(store.data[found.value].fields, "caseStudyId")))
          && (!fetched ==> error == None && caseStudy == old(caseStudy) && View() == PageScreen(pageData.value, caseStudy))
      ensures fetched && fetch.Fetched? ==>
        caseStudy == Some(fetch.study) && error == None && View() == PageScreen(pageData.value, caseStudy)
      ensures fetched && fetch.FetchFailed? ==>
        caseStudy == old(caseStudy) && View() == ErrorScreen("Failed to load page data")
    {
      loading := true;
      error := None;
      fetched := false;
      var slug := SlugOf(pathname);
      var page := store.GetBySlug(slug);
      if page.None? {
        error := Some("Page not found");
      } else {
        pageData := page;
        if Truthy(Get(page.value.fields, "caseStudyId")) {
          fetched := true;
          if fetch.Fetched? {
            caseStudy := Some(fetch.study);
          } else {
            error := Some("Failed to load page data");
          }
        }
      }
      loading := false;
    }
  }
}
