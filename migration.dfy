/** The migration commands of the command-line plugin: upgrade, overlay and
    trim. Upgrade and overlay read the installed version; trim reads it only
    when no reference version is given. Each resolves a version module of
    the schema package, then rejects the request, dispatches exactly one call
    into that module on one freshly opened connection, or, for a trim the
    operator declines at the y/n prompt after its checks, does nothing. */
module Migration {
  import opened Wrappers
  import opened Versions

  /** What a command does once its checks pass: open one connection and call
      `op` of the module of `version` with `argument` (the
      `fromVersion` of upgrade and overlay, the trim version of trim); or,
      for a trim the operator declined, nothing at all. A rejection opens no
      migration connection and calls nothing. */
  datatype Action = Invoke(op: Operation, version: Version, argument: Version) | NotPerformed

  /** The version an upgrade or overlay migrates to: the requested one, or
      by default the latest version of the package. */
  function ChosenTarget(reg: Registry, target: Option<Version>): Result<Version, Error>
  {
    if target.Some? then Ok(target.value) else Latest(reg)
  }

  /** The installed-version checks upgrade and overlay pass before they look
      at the target: the version can be read, a schema is installed, and
      the requested target (if any) is not the installed version. */
  predicate InstalledChecksPass(q: QueryOutcome, target: Option<Version>)
  {
    GetSchemaVersion(q).Ok? && GetSchemaVersion(q).value.Some? && target != GetSchemaVersion(q).value
  }

  /** The decision procedure upgrade and overlay share. The "already
      installed" test compares the installed version with the target as the
      caller gave it, before an omitted target is replaced by the latest
      version. */
  function Migrate(op: Operation, reg: Registry, q: QueryOutcome, target: Option<Version>): Result<Action, Error>
  {
    var current :- GetSchemaVersion(q);
    if current.None? then Err(NoSchemaInstalled)
    else if target == current then Err(AlreadyInstalled(current.value))
    else
      var targetVersion :- ChosenTarget(reg, target);
      var m :- Resolve(reg, targetVersion);
      if !m.Supports(op) then Err(Unsupported(targetVersion, op))
      else Ok(Invoke(op, targetVersion, current.value))
  }

  /** upgrade: rejected when no schema is installed or when the explicitly
      requested target is the installed version (never when the target is
      omitted); rejected when the target module lacks `upgrade`; otherwise
      exactly one call of the target module's `upgrade` with the installed
      version as `fromVersion`. */
  function Upgrade(reg: Registry, q: QueryOutcome, target: Option<Version>): (r: Result<Action, Error>)
    ensures GetSchemaVersion(q).Err? ==> r == Err(GetSchemaVersion(q).error)
    ensures GetSchemaVersion(q) == Ok(None) ==> r == Err(NoSchemaInstalled)
    ensures target.Some? && GetSchemaVersion(q) == Ok(target) ==> r == Err(AlreadyInstalled(target.value))
    ensures target.None? ==> !(r.Err? && r.error.AlreadyInstalled?)
    ensures r.Err? && r.error.Unsupported? ==>
              ChosenTarget(reg, target).Ok? && ChosenTarget(reg, target).value in reg.modules &&
              r.error == Unsupported(ChosenTarget(reg, target).value, Operation.Upgrade) &&
              !reg.modules[ChosenTarget(reg, target).value].upgrade
    ensures r.Ok? <==>
              GetSchemaVersion(q).Ok? && GetSchemaVersion(q).value.Some? &&
              target != GetSchemaVersion(q).value &&
              ChosenTarget(reg, target).Ok? && ChosenTarget(reg, target).value in reg.modules &&
              reg.modules[ChosenTarget(reg, target).value].upgrade
    ensures r.Ok? ==>
              r.value == Invoke(Operation.Upgrade, ChosenTarget(reg, target).value, GetSchemaVersion(q).value.value)
    ensures InstalledChecksPass(q, target) && ChosenTarget(reg, target).Err? ==> r == Err(NoVersionsDeclared)
    ensures InstalledChecksPass(q, target) && ChosenTarget(reg, target).Ok? ==>
              var v := ChosenTarget(reg, target).value;
              (v !in reg.modules ==> r == Err(UnknownVersion(v))) &&
              (v in reg.modules && !reg.modules[v].upgrade ==> r == Err(Unsupported(v, Operation.Upgrade)))
  {
    Migrate(Operation.Upgrade, reg, q, target)
  }

  /** overlay: the same checks and defaults as upgrade, but it needs the
      target module's `overlay` and dispatches that instead. */
  function Overlay(reg: Registry, q: QueryOutcome, target: Option<Version>): (r: Result<Action, Error>)
    ensures GetSchemaVersion(q).Err? ==> r == Err(GetSchemaVersion(q).error)
    ensures GetSchemaVersion(q) == Ok(None) ==> r == Err(NoSchemaInstalled)
    ensures target.Some? && GetSchemaVersion(q) == Ok(target) ==> r == Err(AlreadyInstalled(target.value))
    ensures target.None? ==> !(r.Err? && r.error.AlreadyInstalled?)
    ensures r.Err? && r.error.Unsupported? ==>
              ChosenTarget(reg, target).Ok? && ChosenTarget(reg, target).value in reg.modules &&
              r.error == Unsupported(ChosenTarget(reg, target).value, Operation.Overlay) &&
              !reg.modules[ChosenTarget(reg, target).value].overlay
    ensures r.Ok? <==>
              GetSchemaVersion(q).Ok? && GetSchemaVersion(q).value.Some? &&
              target != GetSchemaVersion(q).value &&
              ChosenTarget(reg, target).Ok? && ChosenTarget(reg, target).value in reg.modules &&
              reg.modules[ChosenTarget(reg, target).value].overlay
    ensures r.Ok? ==>
              r.value == Invoke(Operation.Overlay, ChosenTarget(reg, target).value, GetSchemaVersion(q).value.value)
    ensures InstalledChecksPass(q, target) && ChosenTarget(reg, target).Err? ==> r == Err(NoVersionsDeclared)
    ensures InstalledChecksPass(q, target) && ChosenTarget(reg, target).Ok? ==>
              var v := ChosenTarget(reg, target).value;
              (v !in reg.modules ==> r == Err(UnknownVersion(v))) &&
              (v in reg.modules && !reg.modules[v].overlay ==> r == Err(Unsupported(v, Operation.Overlay)))
  {
    Migrate(Operation.Overlay, reg, q, target)
  }

  /** With the target omitted and the latest version already installed, the
      command does not reject: it dispatches a migration from the latest
      version to itself. */
  lemma OmittedTargetAtLatestStillDispatches(op: Operation, reg: Registry, q: QueryOutcome, latest: Version)
    requires op != Operation.Trim
    requires Latest(reg) == Ok(latest) && GetSchemaVersion(q) == Ok(Some(latest))
    requires latest in reg.modules && reg.modules[latest].Supports(op)
    ensures Migrate(op, reg, q, None) == Ok(Invoke(op, latest, latest))
  {
  }

  /** With v installed, an explicit upgrade or overlay to v is rejected as
      already installed: once a migration has recorded its target in the
      metadata row, the same request cannot run again. */
  lemma InstalledTargetRejected(reg: Registry, v: Version)
    ensures Upgrade(reg, VersionRow(v), Some(v)) == Err(AlreadyInstalled(v))
    ensures Overlay(reg, VersionRow(v), Some(v)) == Err(AlreadyInstalled(v))
  {
    VersionRowReadsBack(reg, v);
  }

  /** A metadata row whose `value` is NULL reads as no schema: upgrade and
      overlay reject it as not installed, and the startup check fails. */
  lemma NullVersionReadsAsNotInstalled(reg: Registry, target: Option<Version>)
    ensures Upgrade(reg, QueryRows([map["value" := None]]), target) == Err(NoSchemaInstalled)
    ensures Overlay(reg, QueryRows([map["value" := None]]), target) == Err(NoSchemaInstalled)
    ensures CheckDbSchemaVersion(reg, QueryRows([map["value" := None]])).Err?
  {
    var row: map<string, Option<Version>> := map["value" := None];
    assert "value" in row;
  }

  // ---------------------------------------------------------------------
  // askYesOrNoQuestion

  predicate IsYesOrNo(s: string)
  {
    s == "y" || s == "n"
  }

  /** Response `i` is `y` or `n` and every earlier response is neither. */
  predicate SettlesAt(input: seq<string>, i: int)
  {
    0 <= i < |input| && IsYesOrNo(input[i]) && forall j :: 0 <= j < i ==> !IsYesOrNo(input[j])
  }

  /** The answer the confirmation prompt settles on: the first response that
      is `y` or `n`; `None` when the input ends first. */
  function FirstAnswer(input: seq<string>): (r: Option<string>)
    ensures r.Some? <==> exists i :: 0 <= i < |input| && IsYesOrNo(input[i])
    ensures r.Some? ==> exists i :: SettlesAt(input, i) && r.value == input[i]
  {
    if input == [] then None
    else if IsYesOrNo(input[0]) then
      assert SettlesAt(input, 0);
      Some(input[0])
    else
      var rest := FirstAnswer(input[1..]);
      assert forall i :: 1 <= i < |input| ==> input[i] == input[1..][i - 1];
      assert rest.Some? ==> exists i :: SettlesAt(input, i) && rest.value == input[i] by {
        if rest.Some? {
          var i :| SettlesAt(input[1..], i) && rest.value == input[1..][i];
          assert SettlesAt(input, i + 1) by {
            forall j | 0 <= j < i + 1 ensures !IsYesOrNo(input[j]) {
              if j > 0 { assert input[j] == input[1..][j - 1]; }
            }
          }
        }
      }
      rest
  }

  /** askYesOrNoQuestion, reading responses from `input`: it keeps prompting
      until a response is `y` or `n` and returns that response, having read
      exactly the responses up to and including it; it fails when the input
      runs out first. */
  method AskYesOrNoQuestion(input: seq<string>) returns (answer: Option<string>, consumed: nat)
    ensures answer == FirstAnswer(input)
    ensures consumed <= |input|
    ensures answer.Some? ==> 0 < consumed && SettlesAt(input, consumed - 1) &&
                             answer.value == input[consumed - 1]
    ensures answer.None? ==> consumed == |input|
  {
    if |input| == 0 {
      return None, 0;
    }
    var cfm := input[0];
    consumed := 1;
    while cfm != "y" && cfm != "n"
      invariant 1 <= consumed <= |input|
      invariant cfm == input[consumed - 1]
      invariant forall j :: 0 <= j < consumed - 1 ==> !IsYesOrNo(input[j])
      invariant FirstAnswer(input) == FirstAnswer(input[consumed - 1..])
      decreases |input| - consumed
    {
      assert input[consumed - 1..][1..] == input[consumed..];
      if consumed == |input| {
        return None, consumed;
      }
      cfm := input[consumed];
      consumed := consumed + 1;
    }
    answer := Some(cfm);
  }

  // ---------------------------------------------------------------------
  // trim

  /** The reference version of a trim: the requested one, or by default the
      installed version (read only when no reference is given). */
  function TrimReference(q: QueryOutcome, reference: Option<Version>): Result<Option<Version>, Error>
  {
    if reference.Some? then Ok(reference) else GetSchemaVersion(q)
  }

  /** The version a trim removes: the requested one, or by default the
      reference module's `previousVersion`. */
  function TrimmedVersion(ref: Version, m: VersionModule, trimVersion: Option<Version>): Result<Version, Error>
  {
    if trimVersion.Some? then Ok(trimVersion.value)
    else if m.previousVersion.Some? then Ok(m.previousVersion.value)
    else Err(NoPreviousVersion(ref))
  }

  /** trim, with the operator's responses to the confirmation prompt as `input`. */
  function Trim(reg: Registry, q: QueryOutcome, reference: Option<Version>, trimVersion: Option<Version>,
                input: seq<string>): (r: Result<Action, Error>)
    ensures TrimReference(q, reference) == Ok(None) ==> r == Err(NoSchemaInstalled)
    ensures reference.None? && GetSchemaVersion(q).Err? ==> r == Err(GetSchemaVersion(q).error)
    ensures r.Ok? <==>
              TrimReference(q, reference).Ok? && TrimReference(q, reference).value.Some? &&
              TrimReference(q, reference).value.value in reg.modules &&
              reg.modules[TrimReference(q, reference).value.value].trim &&
              TrimmedVersion(TrimReference(q, reference).value.value,
                             reg.modules[TrimReference(q, reference).value.value], trimVersion).Ok? &&
              FirstAnswer(input).Some?
    ensures r.Ok? && FirstAnswer(input) == Some("y") ==>
              r.value == Invoke(Operation.Trim, TrimReference(q, reference).value.value,
                                TrimmedVersion(TrimReference(q, reference).value.value,
                                               reg.modules[TrimReference(q, reference).value.value],
                                               trimVersion).value)
    ensures r.Ok? && FirstAnswer(input) != Some("y") ==> r.value == NotPerformed
    ensures r.Err? && r.error.Unsupported? ==>
              r.error == Unsupported(TrimReference(q, reference).value.value, Operation.Trim)
    ensures trimVersion.Some? && r.Ok? && r.value.Invoke? ==> r.value.argument == trimVersion.value
    ensures TrimReference(q, reference).Ok? && TrimReference(q, reference).value.Some? ==>
              var ref := TrimReference(q, reference).value.value;
              (ref !in reg.modules ==> r == Err(UnknownVersion(ref))) &&
              (ref in reg.modules && !reg.modules[ref].trim ==> r == Err(Unsupported(ref, Operation.Trim))) &&
              (ref in reg.modules && reg.modules[ref].trim ==>
                 (trimVersion.None? && reg.modules[ref].previousVersion.None? ==> r == Err(NoPreviousVersion(ref))) &&
                 ((trimVersion.Some? || reg.modules[ref].previousVersion.Some?) && FirstAnswer(input).None? ==>
                    r == Err(InputExhausted)))
  {
    var ref :- TrimReference(q, reference);
    if ref.None? then Err(NoSchemaInstalled)
    else
      var m :- Resolve(reg, ref.value);
      if !m.trim then Err(Unsupported(ref.value, Operation.Trim))
      else
        var trimmed :- TrimmedVersion(ref.value, m, trimVersion);
        var response :- if FirstAnswer(input).Some? then Ok(FirstAnswer(input).value) else Err(InputExhausted);
        if response == "y" then Ok(Invoke(Operation.Trim, ref.value, trimmed))
        else Ok(NotPerformed)
  }

  /** A trim with an explicit reference version never consults the installed version. */
  lemma TrimWithReferenceIgnoresInstalledVersion(reg: Registry, q1: QueryOutcome, q2: QueryOutcome,
                                                 reference: Version, trimVersion: Option<Version>,
                                                 input: seq<string>)
    ensures Trim(reg, q1, Some(reference), trimVersion, input) == Trim(reg, q2, Some(reference), trimVersion, input)
  {
  }

  /** A response that is `y` or `n` and comes after only other responses is
      the answer the prompt settles on. */
  lemma {:induction false} FirstAnswerAt(input: seq<string>, k: nat)
    requires SettlesAt(input, k)
    ensures FirstAnswer(input) == Some(input[k])
  {
    if k > 0 {
      assert !IsYesOrNo(input[0]);
      assert SettlesAt(input[1..], k - 1) by {
        assert forall j :: 0 <= j < k - 1 ==> input[1..][j] == input[j + 1];
      }
      FirstAnswerAt(input[1..], k - 1);
    }
  }

  /** Declining the prompt, even after unrelated responses, dispatches nothing. */
  lemma DeclinedTrimDispatchesNothing(reg: Registry, q: QueryOutcome, reference: Option<Version>,
                                      trimVersion: Option<Version>, input: seq<string>, k: nat)
    requires k < |input| && input[k] == "n"
    requires forall j :: 0 <= j < k ==> !IsYesOrNo(input[j])
    ensures Trim(reg, q, reference, trimVersion, input).Ok? ==>
              Trim(reg, q, reference, trimVersion, input) == Ok(NotPerformed)
  {
    assert SettlesAt(input, k);
    FirstAnswerAt(input, k);
  }

  // ---------------------------------------------------------------------
  // The rejection message for a missing operation

  function OperationName(op: Operation): string
  {
    match op
    case Upgrade => "upgrade"
    case Overlay => "overlay"
    case Trim => "trim"
  }

  /** The message a command raises when the version module lacks the
      requested operation; it always says the version does not support it. */
  function UnsupportedMessage(v: Version, op: Operation): (m: string)
    ensures "Version " + v + " does not support the " + OperationName(op) + " operation" <= m
  {
    var claim := "Version " + v + " does not support the " + OperationName(op) + " operation";
    var tail := if op == Operation.Upgrade then " (hint: overlay and trim may be supported)." else ".";
    assert claim <= claim + tail;
    claim + tail
  }

  /** The overlay rejection message as the source spells it. */
  function OverlayUnsupportedMessageAsWritten(v: Version): string
  {
    "Version " + v + " does support the overlay operation."
  }

  /** As written, the overlay rejection message claims the opposite of why
      the command was rejected. */
  lemma OverlayMessageAsWrittenClaimsSupport(v: Version)
    ensures !("Version " + v + " does not support" <= OverlayUnsupportedMessageAsWritten(v))
    ensures OverlayUnsupportedMessageAsWritten(v) != UnsupportedMessage(v, Operation.Overlay)
  {
    var k := |"Version " + v + " does "|;
    assert ("Version " + v + " does not support")[k] == 'n';
    assert OverlayUnsupportedMessageAsWritten(v)[k] == 's';
    assert UnsupportedMessage(v, Operation.Overlay)[k] == 'n';
  }
}
