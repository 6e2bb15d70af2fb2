/** Field rules of one upstream node row: the host rules (required, then the host
    pattern `^\*?[0-9a-zA-Z-._\[\]:]+$`), the bounds of the port and weight inputs,
    and the row defaults. */
module NodeValidation {
  import opened Wrappers

  // ---------------------------------------------------------------------------
  // Host pattern
  // ---------------------------------------------------------------------------

  /** The bracket class of the pattern: digits, ASCII letters, `-`, `.`, `_`, `[`, `]`, `:`.
      (The `-` after `A-Z` starts no range, so it is a literal.) */
  predicate IsHostChar(c: char)
  {
    '0' <= c <= '9' || 'a' <= c <= 'z' || 'A' <= c <= 'Z' ||
    c == '-' || c == '.' || c == '_' || c == '[' || c == ']' || c == ':'
  }

  predicate AllHostChars(s: string)
  {
    forall i :: 0 <= i < |s| ==> IsHostChar(s[i])
  }

  /** Declarative reading of the pattern: one or more class characters, optionally
      preceded by a single `*`. */
  predicate HostPatternSpec(s: string)
  {
    (|s| >= 1 && AllHostChars(s)) || (|s| >= 2 && s[0] == '*' && AllHostChars(s[1..]))
  }

  /** States of a matcher for the anchored pattern, reading left to right. */
  datatype MatchState = Start | AfterStar | InBody | Dead

  function Step(q: MatchState, c: char): MatchState
  {
    match q
    case Start => if c == '*' then AfterStar else if IsHostChar(c) then InBody else Dead
    case AfterStar => if IsHostChar(c) then InBody else Dead
    case InBody => if IsHostChar(c) then InBody else Dead
    case Dead => Dead
  }

  function Run(q: MatchState, s: string): MatchState
    decreases |s|
  {
    if s == [] then q else Run(Step(q, s[0]), s[1..])
  }


  lemma {:induction false} RunFromDead(s: string)
    ensures Run(Dead, s) == Dead
  {
    if s != [] {
      RunFromDead(s[1..]);
    }
  }

  /** From the body state the matcher accepts exactly the strings of class characters. */
  lemma {:induction false} RunFromBody(s: string)
    ensures Run(InBody, s) == InBody <==> AllHostChars(s)
  {
    if s != [] {
      if IsHostChar(s[0]) {
        RunFromBody(s[1..]);
        assert AllHostChars(s) <==> AllHostChars(s[1..]) by {
          if AllHostChars(s[1..]) {
            forall i | 0 <= i < |s| ensures IsHostChar(s[i]) {
              if i > 0 { assert s[i] == s[1..][i - 1]; }
            }
          }
        }
      } else {
        RunFromDead(s[1..]);
      }
    }
  }

  /** After the optional star the matcher needs one or more class characters. */
  lemma RunFromAfterStar(t: string)
    ensures Run(AfterStar, t) == InBody <==> |t| >= 1 && AllHostChars(t)
  {
    if t != [] {
      assert Run(AfterStar, t) == Run(Step(AfterStar, t[0]), t[1..]);
      if IsHostChar(t[0]) {
        RunFromBody(t);
        assert Run(InBody, t) == Run(InBody, t[1..]);
      } else {
        RunFromDead(t[1..]);
      }
    }
  }

  /** From the start state the matcher accepts exactly the strings the declarative
      reading describes. */
  lemma RunFromStart(s: string)
    ensures Run(Start, s) == InBody <==> HostPatternSpec(s)
  {
    if s != [] {
      assert Run(Start, s) == Run(Step(Start, s[0]), s[1..]);
      if s[0] == '*' {
        assert !AllHostChars(s) by { assert !IsHostChar(s[0]); }
        RunFromAfterStar(s[1..]);
      } else if IsHostChar(s[0]) {
        RunFromBody(s);
        assert Run(InBody, s) == Run(InBody, s[1..]);
      } else {
        assert !AllHostChars(s) by { assert !IsHostChar(s[0]); }
        RunFromDead(s[1..]);
      }
    }
  }

  /** `pattern.test(s)`: the matcher ends in the accepting state, which happens exactly
      when `s` is one or more class characters, optionally after a single `*`. */
  function MatchesHostPattern(s: string): (r: bool)
    ensures r <==> HostPatternSpec(s)
  {
    RunFromStart(s);
    Run(Start, s) == InBody
  }

  /** Accepted host example: a wildcard domain. */
  lemma WildcardHostAccepted()
    ensures MatchesHostPattern("*.example.com")
  {
    var body := "*.example.com"[1..];
    forall i | 0 <= i < |body| ensures IsHostChar(body[i]) {
      assert body[i] in ".examplecom";
    }
  }

  /** Accepted host example: a bracketed IPv6 literal. */
  lemma Ipv6HostAccepted()
    ensures MatchesHostPattern("[::1]")
  {
    var s := "[::1]";
    forall i | 0 <= i < |s| ensures IsHostChar(s[i]) {
      assert s[i] in "[:1]";
    }
  }

  /** Rejected host examples: a lone star, two stars, a star inside, a space, empty. */
  lemma HostPatternRejects()
    ensures !MatchesHostPattern("*") && !MatchesHostPattern("**a") && !MatchesHostPattern("a*b")
    ensures !MatchesHostPattern("a b") && !MatchesHostPattern("")
  {
    assert !IsHostChar("*"[0]);
    assert !IsHostChar("**a"[1]) && "**a"[1..][0] == "**a"[1];
    assert !IsHostChar("a*b"[1]) && "a*b"[1..][0] == "a*b"[1];
    assert !IsHostChar("a b"[1]);
  }

  // ---------------------------------------------------------------------------
  // Host rules
  // ---------------------------------------------------------------------------

  datatype FieldError = HostRequired | HostPatternMismatch | WeightRequired

  /** The host field's rules: `required` rejects an unset or empty value; the pattern
      rule is skipped for an empty value and otherwise rejects a non-matching one. */
  function HostErrors(host: Option<string>): (errs: seq<FieldError>)
    ensures errs == [] <==> host.Some? && MatchesHostPattern(host.value)
    ensures host == None || host == Some("") ==> errs == [HostRequired]
  {
    if host == None || host == Some("") then [HostRequired]
    else if MatchesHostPattern(host.value) then []
    else [HostPatternMismatch]
  }

  // ---------------------------------------------------------------------------
  // Port and weight
  // ---------------------------------------------------------------------------

  const PortMin: int := 1
  const PortMax: int := 65535
  const WeightMin: int := 0
  const WeightMax: int := 1000
  const DefaultWeight: int := 1

  /** One row of the `submitNodes` field array; an unset field is `None`. */
  datatype NodeEntry = NodeEntry(host: Option<string>, port: Option<int>, weight: Option<int>)


  /** Registering a row's weight item applies its initial value 1 to an unset weight;
      host, port and a set weight are kept. */
  function RegisterEntry(e: NodeEntry): (r: NodeEntry)
    ensures r.host == e.host && r.port == e.port && r.weight.Some?
    ensures e.weight.Some? ==> r.weight == e.weight
    ensures e.weight.None? ==> r.weight == Some(1)
  {
    e.(weight := Some(e.weight.GetOr(DefaultWeight)))
  }

  /** The range the port input admits. */
  predicate PortInRange(p: int)
  {
    PortMin <= p <= PortMax
  }

  /** The range the weight input admits. */
  predicate WeightInRange(w: int)
  {
    WeightMin <= w <= WeightMax
  }

  /** The field array's initial value: one row whose fields are all unset. Once its
      weight item registers, the row has weight 1, which is in range, and its only rule
      error is the missing host. */
  function InitialEntries(): (rows: seq<NodeEntry>)
    ensures |rows| == 1 && rows[0].host.None? && rows[0].port.None?
    ensures RegisterEntry(rows[0]).weight == Some(DefaultWeight)
    ensures WithinInputBounds(RegisterEntry(rows[0]))
    ensures EntryErrors(RegisterEntry(rows[0])) == [HostRequired]
  {
    [NodeEntry(None, None, None)]
  }

  /** The port is optional; when present it lies in its range. Same for the weight,
      whose presence is checked by its own `required` rule. */
  predicate WithinInputBounds(e: NodeEntry)
  {
    (e.port.Some? ==> PortInRange(e.port.value)) && (e.weight.Some? ==> WeightInRange(e.weight.value))
  }

  /** The rule errors of one row, host rules first, then the weight's `required` rule. */
  function EntryErrors(e: NodeEntry): (errs: seq<FieldError>)
    ensures errs == [] <==> e.host.Some? && MatchesHostPattern(e.host.value) && e.weight.Some?
    ensures WeightRequired in errs <==> e.weight.None?
  {
    HostErrors(e.host) + (if e.weight.None? then [WeightRequired] else [])
  }

  /** A row that passes every rule of its fields and whose numbers lie in their inputs'
      ranges. The ranges are kept by the number inputs, not by any rule. */
  predicate PassesRulesWithinRanges(e: NodeEntry)
  {
    EntryErrors(e) == [] && WithinInputBounds(e)
  }

  /** Registering is idempotent, and a registered row never fails the weight rule. */
  lemma RegisterEntryStable(e: NodeEntry)
    ensures RegisterEntry(RegisterEntry(e)) == RegisterEntry(e)
    ensures WeightRequired !in EntryErrors(RegisterEntry(e))
  {
  }

  /** A row with a matching host and an in-range port passes the rules within the
      ranges exactly when its weight is in [0, 1000]; boundary values of both ranges. */
  lemma EntryBounds(host: string, port: Option<int>, w: int)
    requires MatchesHostPattern(host)
    requires port.Some? ==> PortInRange(port.value)
    ensures PassesRulesWithinRanges(NodeEntry(Some(host), port, Some(w))) <==> 0 <= w <= 1000
    ensures WeightInRange(1000) && !WeightInRange(1001) && WeightInRange(0) && !WeightInRange(-1)
    ensures PortInRange(1) && PortInRange(65535) && !PortInRange(0) && !PortInRange(65536)
  {
  }
}
