/** The Access Gateway secrets: `_get_magma_secrets` reads the Hardware ID and the
    Challenge key out of the output of `show_gateway_info.py`, and the action handler
    `_on_get_access_gateway_secrets` reports them (src/charm.py).  Running the script
    is not modelled: its decoded output, or `None` when it fails, is a parameter. */
module GatewaySecrets {
  import opened Wrappers
  import opened Text

  const HARDWARE_ID_LABEL: string := "Hardware ID"
  const CHALLENGE_KEY_LABEL: string := "Challenge key"

  const NOT_RUNNING: string := "Magma is not running! Please start Magma and try again."
  const SECRETS_FAILED: string := "Failed to get Magma Access Gateway secrets!"

  /** `filter(None, lines)`: the lines that are not empty, in order. */
  function NonEmpty(lines: seq<string>): seq<string>
  {
    if lines == [] then []
    else (if lines[0] != "" then [lines[0]] else []) + NonEmpty(lines[1..])
  }

  /** `re.search("^-(-*)", line)` finds a match: the line starts with a dash, as the
      underlines of the script's headings do. */
  predicate IsRule(line: string)
  {
    |line| > 0 && line[0] == '-'
  }

  /** `filter(lambda x: not re.search("^-(-*)", x), lines)`: the lines that are not
      underlines, in order. */
  function DropRules(lines: seq<string>): seq<string>
  {
    if lines == [] then []
    else (if !IsRule(lines[0]) then [lines[0]] else []) + DropRules(lines[1..])
  }

  /** The filters keep exactly the lines that are not empty, respectively not
      underlines. */
  lemma {:induction false} FilterMembers(lines: seq<string>, x: string)
    ensures x in NonEmpty(lines) <==> x in lines && x != ""
    ensures x in DropRules(lines) <==> x in lines && !IsRule(x)
  {
    if lines != [] {
      FilterMembers(lines[1..], x);
      assert x in lines <==> x == lines[0] || x in lines[1..];
    }
  }

  /** The filters read from line i on. */
  lemma {:induction false} NonEmptyStep(lines: seq<string>, i: nat)
    requires i < |lines|
    ensures NonEmpty(lines[i..]) == (if lines[i] != "" then [lines[i]] else []) + NonEmpty(lines[i + 1..])
  {
    assert lines[i..][1..] == lines[i + 1..];
  }

  lemma {:induction false} DropRulesStep(lines: seq<string>, i: nat)
    requires i < |lines|
    ensures DropRules(lines[i..]) == (if !IsRule(lines[i]) then [lines[i]] else []) + DropRules(lines[i + 1..])
  {
    assert lines[i..][1..] == lines[i + 1..];
  }

  /** Filtering a concatenation filters each part. */
  lemma {:induction false} NonEmptyConcat(a: seq<string>, b: seq<string>)
    ensures NonEmpty(a + b) == NonEmpty(a) + NonEmpty(b)
  {
    if a == [] {
      assert a + b == b;
    } else {
      assert (a + b)[1..] == a[1..] + b;
      NonEmptyConcat(a[1..], b);
    }
  }

  lemma {:induction false} DropRulesConcat(a: seq<string>, b: seq<string>)
    ensures DropRules(a + b) == DropRules(a) + DropRules(b)
  {
    if a == [] {
      assert a + b == b;
    } else {
      assert (a + b)[1..] == a[1..] + b;
      DropRulesConcat(a[1..], b);
    }
  }

  /** A filter keeps every line when none of them is dropped. */
  lemma {:induction false} FiltersKeepAll(lines: seq<string>)
    ensures (forall i :: 0 <= i < |lines| ==> lines[i] != "") ==> NonEmpty(lines) == lines
    ensures (forall i :: 0 <= i < |lines| ==> !IsRule(lines[i])) ==> DropRules(lines) == lines
  {
    if lines != [] {
      FiltersKeepAll(lines[1..]);
      assert [lines[0]] + lines[1..] == lines;
    }
  }

  /** Filtering twice keeps what filtering once kept. */
  lemma {:induction false} FiltersIdempotent(lines: seq<string>)
    ensures NonEmpty(NonEmpty(lines)) == NonEmpty(lines)
    ensures DropRules(DropRules(lines)) == DropRules(lines)
  {
    if lines != [] {
      FiltersIdempotent(lines[1..]);
      var first := if lines[0] != "" then [lines[0]] else [];
      NonEmptyConcat(first, NonEmpty(lines[1..]));
      var first' := if !IsRule(lines[0]) then [lines[0]] else [];
      DropRulesConcat(first', DropRules(lines[1..]));
    }
  }

  /** `lines.index(heading)`: the position of the first occurrence, `None` standing for
      the `ValueError` of a missing heading. */
  function IndexOf(lines: seq<string>, heading: string): (r: Option<nat>)
    ensures r.Some? <==> heading in lines
    ensures r.Some? ==> r.value < |lines| && lines[r.value] == heading
                        && forall j :: 0 <= j < r.value ==> lines[j] != heading
  {
    if lines == [] then None
    else if lines[0] == heading then Some(0)
    else match IndexOf(lines[1..], heading)
      case None => None
      case Some(i) => Some(i + 1)
  }

  /** Why the secrets cannot be read: a heading is missing (`ValueError`) or is the last
      line (`IndexError`). */
  datatype SecretsError = HeadingMissing(heading: string) | NothingAfterHeading(heading: string)

  /** `lines[lines.index(heading) + 1]`. */
  function ValueAfter(lines: seq<string>, heading: string): (r: Result<string, SecretsError>)
    ensures r.Ok? ==> exists i :: 0 <= i < |lines| - 1 && lines[i] == heading
                                  && (forall j :: 0 <= j < i ==> lines[j] != heading)
                                  && r.value == lines[i + 1]
    ensures r == Err(HeadingMissing(heading)) <==> heading !in lines
    ensures heading in lines && r.Err? ==>
              && r == Err(NothingAfterHeading(heading))
              && lines[|lines| - 1] == heading
              && forall j :: 0 <= j < |lines| - 1 ==> lines[j] != heading
  {
    match IndexOf(lines, heading)
    case None => Err(HeadingMissing(heading))
    case Some(i) => if i + 1 < |lines| then Ok(lines[i + 1]) else Err(NothingAfterHeading(heading))
  }

  /** The lines the secrets are looked up in. */
  function InfoLines(output: string): seq<string>
  {
    DropRules(NonEmpty(Split(output, '\n')))
  }

  /** The pair (Hardware ID, Challenge key), each the line after its heading; the
      Hardware ID is looked up first, so its error wins. */
  function Secrets(output: string): (r: Result<(string, string), SecretsError>)
    ensures r.Ok? <==> ValueAfter(InfoLines(output), HARDWARE_ID_LABEL).Ok?
                       && ValueAfter(InfoLines(output), CHALLENGE_KEY_LABEL).Ok?
    ensures r.Ok? ==> r.value == (ValueAfter(InfoLines(output), HARDWARE_ID_LABEL).value,
                                  ValueAfter(InfoLines(output), CHALLENGE_KEY_LABEL).value)
    ensures ValueAfter(InfoLines(output), HARDWARE_ID_LABEL).Err? ==>
              r == Err(ValueAfter(InfoLines(output), HARDWARE_ID_LABEL).error)
  {
    var lines := InfoLines(output);
    match ValueAfter(lines, HARDWARE_ID_LABEL)
    case Err(e) => Err(e)
    case Ok(hardwareId) =>
      match ValueAfter(lines, CHALLENGE_KEY_LABEL)
      case Err(e) => Err(e)
      case Ok(challengeKey) => Ok((hardwareId, challengeKey))
  }

  /** `list(filter(None, lines))`. */
  method FilterNonEmpty(lines: seq<string>) returns (kept: seq<string>)
    ensures kept == NonEmpty(lines)
  {
    kept := [];
    var i := 0;
    assert lines[0..] == lines;
    while i < |lines|
      invariant 0 <= i <= |lines|
      invariant kept + NonEmpty(lines[i..]) == NonEmpty(lines)
    {
      NonEmptyStep(lines, i);
      if lines[i] != "" {
        kept := kept + [lines[i]];
      }
      i := i + 1;
    }
    assert lines[|lines|..] == [];
  }

  /** `list(filter(lambda x: not re.search("^-(-*)", x), lines))`. */
  method FilterRules(lines: seq<string>) returns (kept: seq<string>)
    ensures kept == DropRules(lines)
  {
    kept := [];
    var i := 0;
    assert lines[0..] == lines;
    while i < |lines|
      invariant 0 <= i <= |lines|
      invariant kept + DropRules(lines[i..]) == DropRules(lines)
    {
      DropRulesStep(lines, i);
      if !IsRule(lines[i]) {
        kept := kept + [lines[i]];
      }
      i := i + 1;
    }
    assert lines[|lines|..] == [];
  }

  /** `_get_magma_secrets`: split the output into lines, drop the empty lines, drop
      the underlines, then pick the line after each heading. */
  method GetMagmaSecrets(output: string) returns (r: Result<(string, string), SecretsError>)
    ensures r == Secrets(output)
  {
    var lines := Split(output, '\n');
    var nonEmpty := FilterNonEmpty(lines);
    var info := FilterRules(nonEmpty);
    var hardwareId := ValueAfter(info, HARDWARE_ID_LABEL);
    if hardwareId.Err? {
      return Err(hardwareId.error);
    }
    var challengeKey := ValueAfter(info, CHALLENGE_KEY_LABEL);
    if challengeKey.Err? {
      return Err(challengeKey.error);
    }
    return Ok((hardwareId.value, challengeKey.value));
  }

  /** `_on_get_access_gateway_secrets`: the results the action sets, or the message it
      fails with.  `running` is whether `magma@magmad` is active and `output` the decoded
      output of the script, `None` when the script fails. */
  function SecretsAction(running: bool, output: Option<string>): (r: Result<map<string, string>, string>)
    ensures !running ==> r == Err(NOT_RUNNING)
    ensures running && output.None? ==> r == Err(SECRETS_FAILED)
    ensures running && output.Some? && Secrets(output.value).Err? ==> r == Err(SECRETS_FAILED)
    ensures r.Ok? <==> running && output.Some? && Secrets(output.value).Ok?
    ensures r.Ok? ==> r.value.Keys == {"hardware-id", "challange-key"}
                      && r.value["hardware-id"] == Secrets(output.value).value.0
                      && r.value["challange-key"] == Secrets(output.value).value.1
  {
    if !running then Err(NOT_RUNNING)
    else match output
      case None => Err(SECRETS_FAILED)
      case Some(text) =>
        match Secrets(text)
        case Err(_) => Err(SECRETS_FAILED)
        case Ok((hardwareId, challengeKey)) =>
          Ok(map["hardware-id" := hardwareId, "challange-key" := challengeKey])
  }
}
