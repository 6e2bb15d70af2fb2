# Upstream node list field: host options, option cache and row rules

This project models the logic inside the upstream node list field of the API gateway
dashboard (`web/src/components/Upstream/components/Nodes.tsx`). That field is a form
field array named `submitNodes`. Each row holds a host, a port and a weight. The host
input offers autocomplete suggestions, which come from the backend's list of upstream
nodes.

The model has three parts:

- `HostOptions` (`host_options.dfy`) covers option building and filtering.
  - Each backend node becomes an option. Its label is `hostname(ip)` and its value is the ip.
  - Options are filtered by a case-insensitive substring match on the value or the label.
  - `fetchRemoteHosts` is modelled as a function. The network answer is given to it as a
    `FetchOutcome`, which is either `Fetched(nodes)` or `FetchFailed`.
  - The source writes the filter twice, at lines 50-54 and 99-103. Here it is defined once,
    as `Filter`, and both uses call it.
- `NodeListField` (`option_cache.dfy`) covers the component's two state slots.
  - `allOptions` is the fetched snapshot and `hostOptions` is what the dropdown displays.
  - The transitions are first given as functions on a `Cache` value, where their
    properties are proved.
  - The class `OptionCache` has the two slots as fields. Its methods `LoadAllOptions`,
    `HandleSearch` and `HandleDropdownVisibleChange` update them in place and are proved
    equal to those functions.
  - A ghost counter records how often the backend is asked.
  - The invariant `CacheInvariant` says that nothing is displayed, or that the display is
    the snapshot filtered by some search text. It implies that the display is a
    subsequence of the snapshot. The mount load, every search and every dropdown change
    keep it.
- `NodeValidation` (`validation.dfy`) covers the per-row rules.
  - The host pattern `^\*?[0-9a-zA-Z-._\[\]:]+$` is written as a small matcher, and
    `MatchesHostPattern` is proved equal to a declarative reading.
  - The host rules are `required` and then `pattern`.
  - The port input admits [1, 65535] and the weight input admits [0, 1000].
  - The field array starts with one row. An unset weight takes the default 1.
- `Wrappers` (`wrappers.dfy`) holds the `Option` type used for unset form fields.

A JavaScript `undefined` search text and the empty string are both falsy, so both are the
empty string here. Case folding is ASCII only.

## Model

| member | source | states |
|---|---|---|
| HostOptions.Lower | web/src/components/Upstream/components/Nodes.tsx:52-53 | `toLowerCase` keeps the length and folds each character on its own |
| HostOptions.LowerIdempotent | web/src/components/Upstream/components/Nodes.tsx:52-53 | lowercasing a lowercased string changes nothing |
| HostOptions.LowerConcat | web/src/components/Upstream/components/Nodes.tsx:52-53 | lowercasing distributes over concatenation |
| HostOptions.Includes | web/src/components/Upstream/components/Nodes.tsx:52-53 | `includes`: the empty needle is found in every string, and a found needle is no longer than the haystack |
| HostOptions.IncludesIff | web/src/components/Upstream/components/Nodes.tsx:52-53 | the scanning `includes` holds exactly when the needle occurs at some index of the haystack (both directions) |
| HostOptions.IncludesInfix | web/src/components/Upstream/components/Nodes.tsx:52-53 | a needle found in a middle part is found in the whole string |
| HostOptions.Matches | web/src/components/Upstream/components/Nodes.tsx:51-53 | the filter callback holds exactly when the lowercased text occurs somewhere in the lowercased value or somewhere in the lowercased label |
| HostOptions.Filter | web/src/components/Upstream/components/Nodes.tsx:50-54 | the filtered list is no longer than its source, and each element is in the source and matches the text |
| HostOptions.FilterMembership | web/src/components/Upstream/components/Nodes.tsx:99-103 | an option is in the filtered list exactly when it is in the source and its lowercased value or label contains the lowercased text |
| HostOptions.FilterIsSubsequence | web/src/components/Upstream/components/Nodes.tsx:99-103 | the filtered list is a subsequence of its source, so the original order is kept |
| HostOptions.FilterConcat | web/src/components/Upstream/components/Nodes.tsx:50-54 | filtering a concatenation is the concatenation of the filtered parts, so each option is judged on its own |
| HostOptions.FilterWhenAllMatch | web/src/components/Upstream/components/Nodes.tsx:50-54 | a list whose every option matches is returned unchanged |
| HostOptions.FilterIdempotent | web/src/components/Upstream/components/Nodes.tsx:99-103 | applying the same filter again changes nothing |
| HostOptions.FilterEmptyText | web/src/components/Upstream/components/Nodes.tsx:44-47 | filtering by empty text is the identity, so the "no search text" branches agree with the filter |
| HostOptions.FilterCaseInsensitive | web/src/components/Upstream/components/Nodes.tsx:52-53 | filtering by the lowercased text gives the same list as filtering by the text |
| HostOptions.ToOption | web/src/components/Upstream/components/Nodes.tsx:39-42 | a node's option has the node's ip as its value, and its label contains that value |
| HostOptions.BuildOptions | web/src/components/Upstream/components/Nodes.tsx:39-42 | one option per node in node order; value is the ip and label is hostname + "(" + ip + ")" |
| HostOptions.BuiltOptionMatchesByLabel | web/src/components/Upstream/components/Nodes.tsx:39-54 | a built label contains its ip, so for built options the filter test reduces to a label match |
| HostOptions.FetchRemoteHosts | web/src/components/Upstream/components/Nodes.tsx:31-62 | a failed fetch is swallowed and gives []; otherwise the result is the filter of the built options by the search text, whichever branch is taken |
| NodeListField.Loaded | web/src/components/Upstream/components/Nodes.tsx:70-79 | what loading stores equals `fetchRemoteHosts('')`: the built options unfiltered, or [] when the fetch fails |
| NodeListField.SearchStep | web/src/components/Upstream/components/Nodes.tsx:83-108 | the snapshot is kept when it is non-empty and loaded when it is empty; the display becomes the snapshot filtered by the text |
| NodeListField.DropdownStep | web/src/components/Upstream/components/Nodes.tsx:111-120 | nothing changes unless the dropdown opens with nothing displayed; then the display becomes the snapshot, which is kept if non-empty and loaded otherwise |
| NodeListField.InvariantGivesSubsequence | web/src/components/Upstream/components/Nodes.tsx:66-67 | when the invariant holds, the displayed options are drawn in order from the snapshot |
| NodeListField.SearchShowsMatching | web/src/components/Upstream/components/Nodes.tsx:98-105 | after a search an option is displayed exactly when it is in the snapshot and matches the text |
| NodeListField.SearchKeepsInvariant | web/src/components/Upstream/components/Nodes.tsx:85-105 | after any search the display is the snapshot filtered by the search text, so the invariant holds |
| NodeListField.SearchWithCacheIgnoresFetch | web/src/components/Upstream/components/Nodes.tsx:85-90 | with a non-empty snapshot a search does not depend on the backend's answer and keeps the snapshot |
| NodeListField.SearchIdempotent | web/src/components/Upstream/components/Nodes.tsx:98-105 | once the snapshot is filled, repeating a search leaves both slots unchanged |
| NodeListField.SearchAgreesWithFetchRemoteHosts | web/src/components/Upstream/components/Nodes.tsx:99-103 | on an empty snapshot, the inline filter displays exactly what `fetchRemoteHosts(text)` returns, so the two copies of the filter agree |
| NodeListField.FailedLoadShowsNothing | web/src/components/Upstream/components/Nodes.tsx:57-61 | a failed fetch on an empty snapshot leaves both slots empty after a search and the snapshot empty after opening the dropdown |
| NodeListField.DropdownKeepsInvariant | web/src/components/Upstream/components/Nodes.tsx:111-118 | the dropdown transition keeps the invariant; when it acts, the display is the whole snapshot, which is its filter by empty text |
| NodeListField.ReopenAfterEmptySearchShowsAll | web/src/components/Upstream/components/Nodes.tsx:111-118 | after a search that matched nothing, opening the dropdown displays the whole snapshot, whatever text is still typed |
| NodeListField.OptionCache.constructor | web/src/components/Upstream/components/Nodes.tsx:66-131 | both slots start empty; the mount effect loads the snapshot once and leaves the display empty |
| NodeListField.OptionCache.LoadAllOptions | web/src/components/Upstream/components/Nodes.tsx:70-80 | called only while nothing is displayed, it stores the loaded list as the snapshot, returns it and asks the backend once; the display stays empty and the invariant holds |
| NodeListField.OptionCache.HandleSearch | web/src/components/Upstream/components/Nodes.tsx:83-108 | from a state satisfying the invariant, the new state is `SearchStep` of the old; the backend is asked exactly when the snapshot was empty; the invariant holds |
| NodeListField.OptionCache.HandleDropdownVisibleChange | web/src/components/Upstream/components/Nodes.tsx:111-120 | the new state is `DropdownStep` of the old; the backend is asked exactly when the dropdown opens with both slots empty; the invariant is kept |
| NodeValidation.RunFromDead | web/src/components/Upstream/components/Nodes.tsx:160 | once the matcher has failed it never accepts |
| NodeValidation.RunFromBody | web/src/components/Upstream/components/Nodes.tsx:160 | in the body state the matcher accepts exactly the strings made only of class characters |
| NodeValidation.RunFromAfterStar | web/src/components/Upstream/components/Nodes.tsx:160 | after the star the matcher accepts exactly the non-empty strings of class characters |
| NodeValidation.RunFromStart | web/src/components/Upstream/components/Nodes.tsx:160 | from the start state the matcher accepts a string exactly when it is one or more class characters, optionally after a single leading `*` |
| NodeValidation.MatchesHostPattern | web/src/components/Upstream/components/Nodes.tsx:160 | `pattern.test` holds exactly when the host is one or more of digits, letters, `-`, `.`, `_`, `[`, `]`, `:`, optionally after a single leading `*` |
| NodeValidation.WildcardHostAccepted | web/src/components/Upstream/components/Nodes.tsx:160 | `*.example.com` matches the host pattern |
| NodeValidation.Ipv6HostAccepted | web/src/components/Upstream/components/Nodes.tsx:160 | `[::1]` matches the host pattern |
| NodeValidation.HostPatternRejects | web/src/components/Upstream/components/Nodes.tsx:160 | `*`, `**a`, `a*b`, `a b` and the empty string do not match |
| NodeValidation.HostErrors | web/src/components/Upstream/components/Nodes.tsx:151-165 | the host passes exactly when it is set and matches the pattern; an unset or empty host fails only the required rule |
| NodeValidation.RegisterEntry | web/src/components/Upstream/components/Nodes.tsx:206 | an unset weight becomes 1 and a set weight is kept; host and port are unchanged |
| NodeValidation.EntryErrors | web/src/components/Upstream/components/Nodes.tsx:151-205 | a row has no rule error exactly when its host is set and matches the pattern and its weight is set; the weight's required error appears exactly when the weight is unset |
| NodeValidation.InitialEntries | web/src/components/Upstream/components/Nodes.tsx:134-137 | the list starts with one unset row; once registered its weight is 1 and in range, and its only rule error is the missing host |
| NodeValidation.RegisterEntryStable | web/src/components/Upstream/components/Nodes.tsx:196-206 | registering twice is registering once, and a registered row never fails the weight's required rule |
| NodeValidation.PortInRange | web/src/components/Upstream/components/Nodes.tsx:190-191 | the port input admits exactly the values in [1, 65535] |
| NodeValidation.WeightInRange | web/src/components/Upstream/components/Nodes.tsx:211-212 | the weight input admits exactly the values in [0, 1000] |
| NodeValidation.WithinInputBounds | web/src/components/Upstream/components/Nodes.tsx:187-213 | a set port lies in the port input's range and a set weight in the weight input's range; an unset port is allowed |
| NodeValidation.PassesRulesWithinRanges | web/src/components/Upstream/components/Nodes.tsx:147-214 | a row has no rule error and its numbers lie in their inputs' ranges |
| NodeValidation.EntryBounds | web/src/components/Upstream/components/Nodes.tsx:187-213 | a row with a matching host and an in-range port has no rule error and in-range numbers exactly when its weight is in [0, 1000]; 0 and 1000 are admitted weights and -1 and 1001 are not; 1 and 65535 are admitted ports and 0 and 65536 are not |

## Notes on the code

- The port and weight bounds are the `min`/`max` props of the number inputs (lines
  190-191 and 211-212). They are not form rules, so no rule rejects a weight of 1001; the
  input keeps typed values in range. The model states the bounds as `WithinInputBounds`,
  apart from the rule errors of `EntryErrors`.
- The field array's initial row sets the weight to `undefined` (line 136), and the weight
  item's `initialValue={1}` (line 206) fills it in; this is `RegisterEntry`.

## Left out

- React rendering, hooks and layout are not modelled. The component is a sequential
  object with two fields.
- Stale `useCallback` closures are not modelled. Each handler sees the current state.
- Async interleaving is not modelled. This includes the last-write-wins race between
  overlapping `loadAllOptions` calls and a search made before the mount fetch resolves.
  Each transition runs to completion.
- The backend call `fetchUpstreamNodes` is not modelled. It is the `FetchOutcome`
  parameter. Nodes are assumed to carry string `hostname` and `ip` fields. A node whose
  `ip` is missing is not modelled. Loading calls only `fetchRemoteHosts('')`, which
  returns at line 46 before any `toLowerCase`, so such a node is kept with an undefined
  value. The inline filter of `handleSearch` (line 101) would then throw outside any
  `try`; the handler's promise rejects and the display is not updated.
- The `catch` of `loadAllOptions` is not modelled, because `fetchRemoteHosts` never throws.
- `console.log`/`console.error` are not modelled. `handleHostChange` only logs.
- `formatMessage` message lookups are not modelled.
- Adding and removing rows are not modelled. They are the form library's field-array
  mechanics, delegated to `add` and `remove`.
- The number inputs' own behaviour is not modelled: clamping an out-of-range entry,
  decimal values, and clearing to `null`. Port and weight are integers here.
- The form library's rule engine is not modelled. Only the rules it is given are
  modelled, with its handling of empty values: the required rule rejects an unset or
  empty string, and the pattern rule skips an empty value.
- Row values that do not come through the number inputs are not range-checked. A port
  or weight set by the enclosing form passes every rule whatever its value, because only
  the inputs keep the ranges; `PassesRulesWithinRanges` states the ranges beside the rules.
- The read-only mode is not modelled. It only disables inputs and hides buttons.
- Lower: models ASCII case folding only, not JavaScript's full Unicode `toLowerCase`.
