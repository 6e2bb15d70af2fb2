/** The node list field's option cache: `allOptions`, the full snapshot fetched from the
    backend, and `hostOptions`, what the host autocomplete currently displays. The
    transitions are first given on values (`SearchStep`, `DropdownStep`), where their
    properties are proved, and then implemented by the methods of `OptionCache`. */
module NodeListField {
  import opened HostOptions

  /** The two option slots of the component. */
  datatype Cache = Cache(allOptions: seq<HostOption>, hostOptions: seq<HostOption>)

  /** Nothing is displayed, or the display is the snapshot filtered by some search
      text (the whole snapshot when that text is empty). */
  ghost predicate CacheInvariant(c: Cache)
  {
    c.hostOptions == [] || exists q :: c.hostOptions == Filter(c.allOptions, q)
  }

  /** Under the invariant the displayed options are drawn, in order, from the snapshot. */
  lemma InvariantGivesSubsequence(c: Cache)
    requires CacheInvariant(c)
    ensures IsSubsequence(c.hostOptions, c.allOptions)
  {
    if c.hostOptions != [] {
      var q :| c.hostOptions == Filter(c.allOptions, q);
      FilterIsSubsequence(c.allOptions, q);
    }
  }

  /** What `loadAllOptions` stores and returns: the built options of the fetched nodes,
      or `[]` on failure; this is `fetchRemoteHosts('')`. */
  function Loaded(fetch: FetchOutcome): (r: seq<HostOption>)
    ensures r == FetchRemoteHosts(fetch, "")
  {
    match fetch
    case FetchFailed => []
    case Fetched(nodes) => FilterEmptyText(BuildOptions(nodes)); BuildOptions(nodes)
  }

  /** `handleSearch(text)`: load when the snapshot is empty, then display everything for
      empty text and the filtered snapshot otherwise. `fetch` is what the backend would
      answer if asked. */
  function SearchStep(c: Cache, text: string, fetch: FetchOutcome): (r: Cache)
    ensures c.allOptions != [] ==> r.allOptions == c.allOptions
    ensures c.allOptions == [] ==> r.allOptions == Loaded(fetch)
    ensures r.hostOptions == Filter(r.allOptions, text)
  {
    var options := if c.allOptions == [] then Loaded(fetch) else c.allOptions;
    if text == "" then FilterEmptyText(options); Cache(options, options)
    else Cache(options, Filter(options, text))
  }

  /** `handleDropdownVisibleChange(open)`: only an opening dropdown with nothing displayed
      changes anything; it then displays the snapshot, loading it first if it is empty. */
  function DropdownStep(c: Cache, open: bool, fetch: FetchOutcome): (r: Cache)
    ensures !(open && c.hostOptions == []) ==> r == c
    ensures open && c.hostOptions == [] ==> r.hostOptions == r.allOptions
    ensures open && c.hostOptions == [] && c.allOptions != [] ==> r.allOptions == c.allOptions
    ensures open && c.hostOptions == [] && c.allOptions == [] ==> r.allOptions == Loaded(fetch)
  {
    if open && |c.hostOptions| == 0 then
      var options := if |c.allOptions| > 0 then c.allOptions else Loaded(fetch);
      Cache(options, options)
    else c
  }

  /** A search displays exactly the snapshot options that match the text. */
  lemma SearchShowsMatching(c: Cache, text: string, fetch: FetchOutcome, o: HostOption)
    ensures var r := SearchStep(c, text, fetch);
      o in r.hostOptions <==> o in r.allOptions && Matches(o, text)
  {
    FilterMembership(SearchStep(c, text, fetch).allOptions, text, o);
  }

  /** A search displays the snapshot filtered by its text, so the invariant holds
      afterwards whatever held before. */
  lemma SearchKeepsInvariant(c: Cache, text: string, fetch: FetchOutcome)
    ensures CacheInvariant(SearchStep(c, text, fetch))
  {
    var r := SearchStep(c, text, fetch);
    assert r.hostOptions == Filter(r.allOptions, text);
  }

  /** With a non-empty snapshot a search never asks the backend: its result does not
      depend on the fetch outcome, and the snapshot is kept. */
  lemma SearchWithCacheIgnoresFetch(c: Cache, text: string, f: FetchOutcome, g: FetchOutcome)
    requires c.allOptions != []
    ensures SearchStep(c, text, f) == SearchStep(c, text, g)
    ensures SearchStep(c, text, f).allOptions == c.allOptions
  {
  }

  /** Repeating a search once the snapshot is filled changes nothing. */
  lemma SearchIdempotent(c: Cache, text: string, f: FetchOutcome, g: FetchOutcome)
    requires SearchStep(c, text, f).allOptions != []
    ensures SearchStep(SearchStep(c, text, f), text, g) == SearchStep(c, text, f)
  {
    FilterIdempotent(SearchStep(c, text, f).allOptions, text);
  }

  /** On an empty snapshot, the inline filter of `handleSearch` displays exactly what
      `fetchRemoteHosts(text)` returns: the two copies of the filter agree. */
  lemma SearchAgreesWithFetchRemoteHosts(c: Cache, text: string, fetch: FetchOutcome)
    requires c.allOptions == []
    ensures SearchStep(c, text, fetch).hostOptions == FetchRemoteHosts(fetch, text)
  {
  }

  /** A failed fetch on an empty snapshot leaves both slots empty. */
  lemma FailedLoadShowsNothing(c: Cache, text: string)
    requires c.allOptions == []
    ensures SearchStep(c, text, FetchFailed) == Cache([], [])
    ensures DropdownStep(c, true, FetchFailed).allOptions == []
  {
  }

  /** Opening the dropdown keeps the invariant (a closed or already filled dropdown is
      left as it was). */
  lemma DropdownKeepsInvariant(c: Cache, open: bool, fetch: FetchOutcome)
    requires CacheInvariant(c)
    ensures CacheInvariant(DropdownStep(c, open, fetch))
  {
    var r := DropdownStep(c, open, fetch);
    if open && c.hostOptions == [] {
      FilterEmptyText(r.allOptions);
      assert r.hostOptions == Filter(r.allOptions, "");
    }
  }

  /** A search that matched nothing leaves the display empty, so reopening the dropdown
      then displays the whole snapshot, regardless of the text still typed. */
  lemma ReopenAfterEmptySearchShowsAll(c: Cache, text: string, f: FetchOutcome, g: FetchOutcome)
    requires SearchStep(c, text, f).allOptions != []
    requires SearchStep(c, text, f).hostOptions == []
    ensures DropdownStep(SearchStep(c, text, f), true, g).hostOptions == SearchStep(c, text, f).allOptions
  {
  }

  /** The component's option state, updated in place by its handlers. */
  class OptionCache {
    var allOptions: seq<HostOption>
    var hostOptions: seq<HostOption>
    /** How many times the backend has been asked. */
    ghost var fetchCount: nat

    function State(): Cache
      reads this
    {
      Cache(allOptions, hostOptions)
    }

    ghost predicate Valid()
      reads this
    {
      CacheInvariant(State())
    }

    /** Mounting: both slots start empty, then the mount effect loads the snapshot. */
    constructor (mountFetch: FetchOutcome)
      ensures Valid()
      ensures allOptions == Loaded(mountFetch) && hostOptions == []
      ensures fetchCount == 1
    {
      allOptions := [];
      hostOptions := [];
      fetchCount := 0;
      new;
      var _ := LoadAllOptions(mountFetch);
    }

    /** `loadAllOptions`: fetch with empty search text, store the result as the snapshot
        and return it; the display is untouched. It is only reached while nothing is
        displayed (on mount, and from the handlers when the snapshot is empty). */
    method LoadAllOptions(fetch: FetchOutcome) returns (options: seq<HostOption>)
      requires hostOptions == []
      modifies this`allOptions, this`fetchCount
      ensures Valid()
      ensures options == Loaded(fetch) && allOptions == options
      ensures fetchCount == old(fetchCount) + 1
    {
      options := FetchRemoteHosts(fetch, "");
      allOptions := options;
      fetchCount := fetchCount + 1;
    }

    /** `handleSearch(searchText)`. */
    method HandleSearch(searchText: string, fetch: FetchOutcome)
      requires Valid()
      modifies this
      ensures Valid()
      ensures State() == SearchStep(old(State()), searchText, fetch)
      ensures fetchCount == old(fetchCount) + (if old(allOptions) == [] then 1 else 0)
    {
      var options := allOptions;
      if |allOptions| == 0 {
        options := LoadAllOptions(fetch);
      }
      if searchText == "" {
        hostOptions := options;
      } else {
        var filtered := Filter(options, searchText);
        hostOptions := filtered;
      }
      SearchKeepsInvariant(old(State()), searchText, fetch);
    }

    /** `handleDropdownVisibleChange(open)`. */
    method HandleDropdownVisibleChange(open: bool, fetch: FetchOutcome)
      requires Valid()
      modifies this
      ensures Valid()
      ensures State() == DropdownStep(old(State()), open, fetch)
      ensures fetchCount == old(fetchCount) +
        (if open && old(hostOptions) == [] && old(allOptions) == [] then 1 else 0)
    {
      if open && |hostOptions| == 0 {
        var options;
        if |allOptions| > 0 {
          options := allOptions;
        } else {
          options := LoadAllOptions(fetch);
        }
        hostOptions := options;
      }
      DropdownKeepsInvariant(old(State()), open, fetch);
    }
  }
}
