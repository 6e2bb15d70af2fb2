/** The host autocomplete options of the upstream node list: how backend nodes become
    `{label, value}` options, and the case-insensitive substring filter applied to them. */
module HostOptions {

  /** A node record returned by the backend node-listing call. */
  datatype Node = Node(hostname: string, ip: string)

  /** An autocomplete option: `labelText` is the `label` shown, `value` is what the host field receives. */
  datatype HostOption = HostOption(labelText: string, value: string)

  /** What one call of the backend node-listing function produces: the node list,
      or a rejected promise (network or server error). */
  datatype FetchOutcome = Fetched(nodes: seq<Node>) | FetchFailed

  // ---------------------------------------------------------------------------
  // Case folding (ASCII part of String.prototype.toLowerCase)
  // ---------------------------------------------------------------------------

  function LowerChar(c: char): char
  {
    if 'A' <= c <= 'Z' then (c as int - 'A' as int + 'a' as int) as char else c
  }

  /** `s.toLowerCase()`, restricted to ASCII letters: same length, each character folded. */
  function Lower(s: string): (r: string)
    ensures |r| == |s|
    ensures forall i :: 0 <= i < |s| ==> r[i] == LowerChar(s[i])
  {
    if s == [] then [] else [LowerChar(s[0])] + Lower(s[1..])
  }

  /** Folding twice is folding once. */
  lemma LowerIdempotent(s: string)
    ensures Lower(Lower(s)) == Lower(s)
  {
  }

  /** Folding distributes over concatenation. */
  lemma LowerConcat(a: string, b: string)
    ensures Lower(a + b) == Lower(a) + Lower(b)
  {
  }

  // ---------------------------------------------------------------------------
  // Substring test (String.prototype.includes)
  // ---------------------------------------------------------------------------

  predicate StartsWith(s: string, prefix: string)
  {
    |prefix| <= |s| && s[..|prefix|] == prefix
  }

  /** `hay.includes(needle)`: tries every start position from left to right. The empty
      needle is found in every string; a found needle is no longer than the haystack. */
  predicate Includes(hay: string, needle: string)
    ensures needle == [] ==> Includes(hay, needle)
    ensures Includes(hay, needle) ==> |needle| <= |hay|
    decreases |hay|
  {
    StartsWith(hay, needle) || (hay != [] && Includes(hay[1..], needle))
  }

  /** Reference reading of `includes`: `needle` occurs in `hay` starting at index `i`. */
  ghost predicate OccursAt(hay: string, needle: string, i: int)
  {
    0 <= i <= |hay| - |needle| && hay[i..i + |needle|] == needle
  }

  /** `needle` occurs somewhere in `hay`. */
  ghost predicate Occurs(hay: string, needle: string)
  {
    exists i :: OccursAt(hay, needle, i)
  }

  /** An occurrence in the tail is an occurrence one index further in the whole. */
  lemma OccursInTail(hay: string, needle: string)
    requires hay != [] && Occurs(hay[1..], needle)
    ensures Occurs(hay, needle)
  {
    var i :| OccursAt(hay[1..], needle, i);
    assert hay[i + 1..i + 1 + |needle|] == hay[1..][i..i + |needle|];
    assert OccursAt(hay, needle, i + 1);
  }

  /** An occurrence that is not at the front is an occurrence in the tail. */
  lemma OccursPastFront(hay: string, needle: string)
    requires hay != [] && !StartsWith(hay, needle) && Occurs(hay, needle)
    ensures Occurs(hay[1..], needle)
  {
    var j :| OccursAt(hay, needle, j);
    assert j != 0;
    assert hay[1..][j - 1..j - 1 + |needle|] == hay[j..j + |needle|];
    assert OccursAt(hay[1..], needle, j - 1);
  }

  /** The scanning test agrees with the reference reading, in both directions. */
  lemma {:induction false} IncludesIff(hay: string, needle: string)
    ensures Includes(hay, needle) <==> Occurs(hay, needle)
    decreases |hay|
  {
    if StartsWith(hay, needle) {
      assert OccursAt(hay, needle, 0);
    } else if hay != [] {
      IncludesIff(hay[1..], needle);
      if Occurs(hay[1..], needle) {
        OccursInTail(hay, needle);
      }
      if Occurs(hay, needle) {
        OccursPastFront(hay, needle);
      }
    } else {
      assert !Occurs(hay, needle);
    }
  }

  /** A substring of the middle part is a substring of the whole. */
  lemma IncludesInfix(a: string, b: string, c: string, needle: string)
    requires Includes(b, needle)
    ensures Includes(a + b + c, needle)
  {
    IncludesIff(b, needle);
    var k :| OccursAt(b, needle, k);
    assert (a + b + c)[|a| + k..|a| + k + |needle|] == b[k..k + |needle|];
    assert OccursAt(a + b + c, needle, |a| + k);
    IncludesIff(a + b + c, needle);
  }

  // ---------------------------------------------------------------------------
  // The option filter (written twice in the component, defined once here)
  // ---------------------------------------------------------------------------

  /** The filter callback: the lowercased value or the lowercased label contains
      the lowercased search text. */
  function Matches(o: HostOption, text: string): (r: bool)
    ensures r <==> Occurs(Lower(o.value), Lower(text)) || Occurs(Lower(o.labelText), Lower(text))
  {
    IncludesIff(Lower(o.value), Lower(text));
    IncludesIff(Lower(o.labelText), Lower(text));
    Includes(Lower(o.value), Lower(text)) || Includes(Lower(o.labelText), Lower(text))
  }

  /** `options.filter(item => Matches(item, text))`: keeps the matching options in order. */
  function Filter(opts: seq<HostOption>, text: string): (r: seq<HostOption>)
    ensures |r| <= |opts|
    ensures forall o :: o in r ==> o in opts && Matches(o, text)
  {
    if opts == [] then []
    else (if Matches(opts[0], text) then [opts[0]] else []) + Filter(opts[1..], text)
  }

  /** `a` is obtained from `b` by deleting elements, keeping the order of the rest. */
  ghost predicate IsSubsequence(a: seq<HostOption>, b: seq<HostOption>)
    decreases |b|
  {
    a == [] || (b != [] && ((a[0] == b[0] && IsSubsequence(a[1..], b[1..])) || IsSubsequence(a, b[1..])))
  }

  /** An option is displayed exactly when it is in the source list and matches. */
  lemma {:induction false} FilterMembership(opts: seq<HostOption>, text: string, o: HostOption)
    ensures o in Filter(opts, text) <==> o in opts && Matches(o, text)
  {
    if opts != [] {
      FilterMembership(opts[1..], text, o);
      assert opts == [opts[0]] + opts[1..];
    }
  }

  /** The filtered list keeps the original order: it is a subsequence of its source. */
  lemma {:induction false} FilterIsSubsequence(opts: seq<HostOption>, text: string)
    ensures IsSubsequence(Filter(opts, text), opts)
  {
    if opts != [] {
      FilterIsSubsequence(opts[1..], text);
      var r := Filter(opts, text);
      if Matches(opts[0], text) {
        assert r[0] == opts[0] && r[1..] == Filter(opts[1..], text);
      } else {
        assert r == Filter(opts[1..], text);
      }
    }
  }

  /** Filtering distributes over concatenation: each option is judged on its own. */
  lemma {:induction false} FilterConcat(a: seq<HostOption>, b: seq<HostOption>, text: string)
    ensures Filter(a + b, text) == Filter(a, text) + Filter(b, text)
  {
    if a == [] {
      assert a + b == b;
    } else {
      assert (a + b)[0] == a[0] && (a + b)[1..] == a[1..] + b;
      FilterConcat(a[1..], b, text);
    }
  }

  /** A list whose every option matches is left unchanged. */
  lemma {:induction false} FilterWhenAllMatch(opts: seq<HostOption>, text: string)
    requires forall o :: o in opts ==> Matches(o, text)
    ensures Filter(opts, text) == opts
  {
    if opts != [] {
      assert opts[0] in opts;
      FilterWhenAllMatch(opts[1..], text);
      assert [opts[0]] + opts[1..] == opts;
    }
  }

  /** Applying the same filter again changes nothing. */
  lemma FilterIdempotent(opts: seq<HostOption>, text: string)
    ensures Filter(Filter(opts, text), text) == Filter(opts, text)
  {
    FilterWhenAllMatch(Filter(opts, text), text);
  }

  /** With empty search text every option matches, so filtering is the identity: the
      "no search text, return everything" branches agree with the filter. */
  lemma FilterEmptyText(opts: seq<HostOption>)
    ensures Filter(opts, "") == opts
  {
    FilterWhenAllMatch(opts, "");
  }

  /** The filter ignores the case of the search text. */
  lemma {:induction false} FilterCaseInsensitive(opts: seq<HostOption>, text: string)
    ensures Filter(opts, Lower(text)) == Filter(opts, text)
  {
    LowerIdempotent(text);
    if opts != [] {
      FilterCaseInsensitive(opts[1..], text);
    }
  }

  // ---------------------------------------------------------------------------
  // Building options from nodes, and the remote fetch
  // ---------------------------------------------------------------------------

  /** One node's option: its value is the ip, and its label `hostname(ip)` contains it. */
  function ToOption(n: Node): (o: HostOption)
    ensures o.value == n.ip && Includes(o.labelText, o.value)
  {
    assert StartsWith(n.ip, n.ip);
    IncludesInfix(n.hostname + "(", n.ip, ")", n.ip);
    HostOption(n.hostname + "(" + n.ip + ")", n.ip)
  }

  /** `nodes.map(ToOption)`: one option per node, in node order. */
  function BuildOptions(nodes: seq<Node>): (r: seq<HostOption>)
    ensures |r| == |nodes|
    ensures forall i :: 0 <= i < |nodes| ==>
      r[i].value == nodes[i].ip && r[i].labelText == nodes[i].hostname + "(" + nodes[i].ip + ")"
  {
    if nodes == [] then [] else [ToOption(nodes[0])] + BuildOptions(nodes[1..])
  }

  /** Every built label contains its ip, so for built options a match on the value
      implies a match on the label: the filter reduces to a label match. */
  lemma BuiltOptionMatchesByLabel(nodes: seq<Node>, i: int, text: string)
    requires 0 <= i < |nodes|
    ensures Matches(BuildOptions(nodes)[i], text) <==>
            Includes(Lower(BuildOptions(nodes)[i].labelText), Lower(text))
  {
    var o := BuildOptions(nodes)[i];
    var a, c := nodes[i].hostname + "(", ")";
    assert o.labelText == a + o.value + c;
    if Includes(Lower(o.value), Lower(text)) {
      IncludesInfix(Lower(a), Lower(o.value), Lower(c), Lower(text));
      LowerConcat(a, o.value);
      LowerConcat(a + o.value, c);
    }
  }

  /** `fetchRemoteHosts(searchText)`: a failed fetch is swallowed and gives the empty
      list; otherwise the built options, unfiltered when the search text is empty
      (JavaScript's `!searchText`) and filtered otherwise. Both branches are the filter. */
  function FetchRemoteHosts(outcome: FetchOutcome, searchText: string): (r: seq<HostOption>)
    ensures outcome.FetchFailed? ==> r == []
    ensures outcome.Fetched? ==> r == Filter(BuildOptions(outcome.nodes), searchText)
  {
    match outcome
    case FetchFailed => []
    case Fetched(nodes) =>
      var hostData := BuildOptions(nodes);
      if searchText == "" then (FilterEmptyText(hostData); hostData) else Filter(hostData, searchText)
  }
}
