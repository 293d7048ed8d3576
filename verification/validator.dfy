/**
 The startup validator: run every rule, then abort with every error or
 proceed and emit every warning.
 */
module Validator {
  import opened Env
  import opened Text
  import opened Diagnostics
  import opened Rules

  /** What one validation pass found, in the order it found it. */
  datatype Findings = Findings(errors: seq<Diagnostic>, warnings: seq<Diagnostic>)

  /**
   What the service does with the findings: abort, logging one diagnostic
   that joins every error message with a newline, or proceed, logging each
   warning message in turn.
   */
  datatype Outcome = Abort(log: string) | Proceed(emitted: seq<string>)

  /**
   Runs every rule once. The errors are the required-key errors, then the
   SMS errors, then the WebAuthn errors; no rule is skipped because an
   earlier one failed.
   */
  function Evaluate(snap: Snapshot, parses: string -> bool): (f: Findings)
    ensures |f.errors| <= |RequiredKeys| + |AlicloudKeys| + 3
    ensures |f.warnings| <= 3
  {
    Findings(RequiredErrors(snap.raw)
             + SmsErrors(snap.resolved.smsProvider, snap.raw)
             + WebauthnErrors(snap.resolved, snap.raw),
             Warnings(snap.raw, parses))
  }

  /** Every error is an error: the error list holds no advisory notice. */
  lemma ErrorsAreErrors(snap: Snapshot, parses: string -> bool)
    ensures forall i :: 0 <= i < |Evaluate(snap, parses).errors| ==> Evaluate(snap, parses).errors[i].Severity() == Error
  {
    var required := RequiredErrors(snap.raw);
    var sms := SmsErrors(snap.resolved.smsProvider, snap.raw);
    var webauthn := WebauthnErrors(snap.resolved, snap.raw);
    var e := required + sms + webauthn;
    forall i | 0 <= i < |e|
      ensures e[i].Severity() == Error
    {
      if i < |required| {
        assert e[i] == required[i];
      } else if i < |required| + |sms| {
        assert e[i] == sms[i - |required|];
      } else {
        assert e[i] == webauthn[i - |required| - |sms|];
      }
    }
  }

  /** Every warning is a warning: no fatal error ends up in the warning list. */
  lemma WarningsAreWarnings(snap: Snapshot, parses: string -> bool)
    ensures forall i :: 0 <= i < |Evaluate(snap, parses).warnings| ==> Evaluate(snap, parses).warnings[i].Severity() == Warning
  {
  }

  /** Both lists come out in source order, so neither repeats a diagnostic. */
  lemma FindingsInSourceOrder(snap: Snapshot, parses: string -> bool)
    ensures Ascending(Evaluate(snap, parses).errors)
    ensures Ascending(Evaluate(snap, parses).warnings)
  {
    var required := RequiredErrors(snap.raw);
    var sms := SmsErrors(snap.resolved.smsProvider, snap.raw);
    var webauthn := WebauthnErrors(snap.resolved, snap.raw);
    RequiredErrorsAscending(snap.raw);
    SmsErrorsAscending(snap.resolved.smsProvider, snap.raw);
    WebauthnErrorsAscending(snap.resolved, snap.raw);
    WarningsAscending(snap.raw, parses);
    AscendingConcat(required, sms);
    AscendingConcat(required + sms, webauthn);
  }

  /**
   The fatal rules, stated one diagnostic at a time: `d` is raised exactly
   when the condition it reports holds of the snapshot.
   */
  ghost predicate Violated(snap: Snapshot, d: Diagnostic)
  {
    || RequiredViolated(snap.raw, d)
    || SmsViolated(snap.resolved.smsProvider, snap.raw, d)
    || WebauthnViolated(snap.resolved, snap.raw, d)
  }

  /**
   Completeness: the errors are exactly the violated rules, each reported
   once, whatever else is wrong with the snapshot.
   */
  lemma ErrorsAreExactlyViolations(snap: Snapshot, parses: string -> bool)
    ensures forall d :: d in Evaluate(snap, parses).errors <==> Violated(snap, d)
    ensures Distinct(Evaluate(snap, parses).errors)
  {
    RequiredErrorsExactly(snap.raw);
    SmsErrorsExactly(snap.resolved.smsProvider, snap.raw);
    WebauthnErrorsExactly(snap.resolved, snap.raw);
    FindingsInSourceOrder(snap, parses);
    AscendingIsDistinct(Evaluate(snap, parses).errors);
  }

  /** Every printable error list joins into a log with one line per error. */
  lemma FatalLogLines(errors: seq<Diagnostic>)
    requires |errors| > 0
    ensures (forall d :: d in errors ==> Printable(d)) ==> Lines(Join(Messages(errors), '\n')) == Messages(errors)
  {
    if forall d :: d in errors ==> Printable(d) {
      var ms := Messages(errors);
      forall i | 0 <= i < |ms|
        ensures SingleLine(ms[i])
      {
        assert errors[i] in errors;
      }
      LinesOfJoin(ms);
    }
  }

  /**
   The fatal/proceed decision: abort exactly when there is an error, with
   every error message on its own line and no warning anywhere; otherwise
   emit every warning message once, in order.
   */
  function Decide(f: Findings): (o: Outcome)
    ensures o.Abort? <==> |f.errors| > 0
    ensures o.Abort? && (forall d :: d in f.errors ==> Printable(d)) ==> Lines(o.log) == Messages(f.errors)
    ensures o.Proceed? ==> |o.emitted| == |f.warnings|
    ensures o.Proceed? ==> forall i :: 0 <= i < |f.warnings| ==> o.emitted[i] == Message(f.warnings[i])
  {
    if |f.errors| > 0 then
      FatalLogLines(f.errors);
      Abort(Join(Messages(f.errors), '\n'))
    else
      Proceed(Messages(f.warnings))
  }

  /** Warnings never change whether the service starts, nor what an abort logs. */
  lemma WarningsNeverDecide(errors: seq<Diagnostic>, w1: seq<Diagnostic>, w2: seq<Diagnostic>)
    ensures Decide(Findings(errors, w1)).Abort? == Decide(Findings(errors, w2)).Abort?
    ensures Decide(Findings(errors, w1)).Abort? ==> Decide(Findings(errors, w1)) == Decide(Findings(errors, w2))
  {
  }

  /** Every error the validator raises can be printed on one line. */
  lemma ErrorsArePrintable(snap: Snapshot, parses: string -> bool)
    ensures forall d :: d in Evaluate(snap, parses).errors ==> Printable(d)
  {
    ErrorsAreExactlyViolations(snap, parses);
    assert SingleLine("undefined") && SingleLine("");
  }

  /** The message of every violated rule is among the error messages. */
  lemma ViolationsHaveMessages(snap: Snapshot, parses: string -> bool)
    ensures forall d :: Violated(snap, d) ==> Message(d) in Messages(Evaluate(snap, parses).errors)
  {
    var errors := Evaluate(snap, parses).errors;
    var ms := Messages(errors);
    forall d | Violated(snap, d)
      ensures Message(d) in ms
    {
      ErrorsAreExactlyViolations(snap, parses);
      var i :| 0 <= i < |errors| && errors[i] == d;
      assert ms[i] == Message(d);
    }
  }

  /** Every error message is the message of a violated rule. */
  lemma MessagesAreViolations(snap: Snapshot, parses: string -> bool)
    ensures forall line :: line in Messages(Evaluate(snap, parses).errors) ==>
              exists d :: Violated(snap, d) && line == Message(d)
  {
    var errors := Evaluate(snap, parses).errors;
    var ms := Messages(errors);
    forall line | line in ms
      ensures exists d :: Violated(snap, d) && line == Message(d)
    {
      ErrorsAreExactlyViolations(snap, parses);
      var i :| 0 <= i < |ms| && ms[i] == line;
      assert errors[i] in errors;
      assert Violated(snap, errors[i]);
    }
  }

  /**
   One whole validation pass. The service aborts exactly when some fatal
   rule is violated, and the abort log has one line per violated rule.
   */
  function Validate(snap: Snapshot, parses: string -> bool): (o: Outcome)
    ensures o.Abort? <==> exists d :: Violated(snap, d)
    ensures o.Abort? ==> forall d :: Violated(snap, d) ==> Message(d) in Lines(o.log)
    ensures o.Abort? ==> forall line :: line in Lines(o.log) ==> exists d :: Violated(snap, d) && line == Message(d)
    ensures o.Proceed? ==> o.emitted == Messages(Warnings(snap.raw, parses))
    ensures o.Proceed? ==> |o.emitted| <= 3
  {
    AbortsOnViolation(snap, parses);
    AbortLogIsViolations(snap, parses);
    Decide(Evaluate(snap, parses))
  }

  /** The pass aborts exactly when some fatal rule is violated. */
  lemma AbortsOnViolation(snap: Snapshot, parses: string -> bool)
    ensures Decide(Evaluate(snap, parses)).Abort? <==> exists d :: Violated(snap, d)
  {
    var errors := Evaluate(snap, parses).errors;
    ErrorsAreExactlyViolations(snap, parses);
    if |errors| > 0 {
      assert Violated(snap, errors[0]);
    }
  }

  /** An abort logs one line per violated rule and nothing else. */
  lemma AbortLogIsViolations(snap: Snapshot, parses: string -> bool)
    ensures Decide(Evaluate(snap, parses)).Abort? ==>
              Lines(Decide(Evaluate(snap, parses)).log) == Messages(Evaluate(snap, parses).errors)
    ensures Decide(Evaluate(snap, parses)).Abort? ==>
              forall d :: Violated(snap, d) ==> Message(d) in Lines(Decide(Evaluate(snap, parses)).log)
    ensures Decide(Evaluate(snap, parses)).Abort? ==>
              forall line :: line in Lines(Decide(Evaluate(snap, parses)).log) ==> exists d :: Violated(snap, d) && line == Message(d)
  {
    ErrorsArePrintable(snap, parses);
    ViolationsHaveMessages(snap, parses);
    MessagesAreViolations(snap, parses);
  }

  // ---------------------------------------------------------------------
  // The check as written: push onto two lists in source order
  // ---------------------------------------------------------------------

  /** A required-key loop that appends to an existing error list. */
  method PushMissing(errors: seq<Diagnostic>, req: Requirement, keys: seq<Key>, raw: RawEnv)
    returns (out: seq<Diagnostic>)
    ensures out == errors + MissingKeys(req, keys, raw)
  {
    out := errors;
    var rest := keys;
    while |rest| > 0
      invariant out + MissingKeys(req, rest, raw) == errors + MissingKeys(req, keys, raw)
    {
      assert MissingKeys(req, rest, raw) == CheckKey(req, raw, rest[0]) + MissingKeys(req, rest[1..], raw);
      if IsUnset(Lookup(raw, rest[0])) {
        out := out + [Missing(req, rest[0])];
      }
      rest := rest[1..];
    }
  }

  /** The SMS provider block, appending to an existing error list. */
  method PushSmsErrors(errors: seq<Diagnostic>, selector: Option<string>, raw: RawEnv)
    returns (out: seq<Diagnostic>)
    ensures out == errors + SmsErrors(selector, raw)
  {
    if Truthy(selector) {
      if selector.value == "twilio" {
        out := PushMissing(errors, ForProvider(Twilio), TwilioKeys, raw);
      } else if selector.value == "alicloud" {
        out := PushMissing(errors, ForProvider(Alicloud), AlicloudKeys, raw);
      } else {
        out := errors;
      }
    } else {
      out := errors + [IncorrectSmsProvider(selector)];
    }
  }

  /** The WebAuthn block, appending to an existing error list. */
  method PushWebauthnErrors(errors: seq<Diagnostic>, env: Resolved, raw: RawEnv)
    returns (out: seq<Diagnostic>)
    ensures out == errors + WebauthnErrors(env, raw)
  {
    out := errors;
    if env.webauthnEnabled {
      if IsUnset(env.clientUrl) {
        out := out + [Missing(ForWebauthn, AuthClientUrl)];
      }
      if IsUnset(env.webauthnRpName) {
        out := out + [Missing(ForWebauthn, AuthWebauthnRpName)];
      }
      if IsUnset(Lookup(raw, AuthWebauthnRpOrigins)) && IsUnset(Lookup(raw, AuthClientUrl)) {
        out := out + [WebauthnOriginUnset];
      }
    }
  }

  /**
   The validator as the service runs it: the blocks run in source order,
   each pushing onto the error or the warning list, and none returns early.
   The template-URL warning sits between the required-key loop and the SMS
   block; since the two lists are separate, this finds the same as
   `Evaluate`.
   */
  method CheckEnvironment(snap: Snapshot, parses: string -> bool)
    returns (errors: seq<Diagnostic>, warnings: seq<Diagnostic>)
    ensures errors == Evaluate(snap, parses).errors
    ensures warnings == Evaluate(snap, parses).warnings
  {
    var raw := snap.raw;
    warnings := [];
    if Truthy(Lookup(raw, AuthUserSessionVariableFields)) {
      warnings := warnings + [SessionVariableFieldsDeprecated];
    }
    var claims := Lookup(raw, AuthJwtCustomClaims);
    if Truthy(claims) && !parses(claims.value) {
      warnings := warnings + [CustomClaimsUnparsable];
    }
    errors := PushMissing([], Always, RequiredKeys, raw);
    assert errors == RequiredErrors(raw);
    var template := if Truthy(Lookup(raw, AuthEmailTemplateFetchUrl)) then [EmailTemplateFetchUrlDeprecated] else [];
    assert warnings + template == Warnings(raw, parses);
    if Truthy(Lookup(raw, AuthEmailTemplateFetchUrl)) {
      warnings := warnings + [EmailTemplateFetchUrlDeprecated];
    }
    errors := PushSmsErrors(errors, snap.resolved.smsProvider, raw);
    errors := PushWebauthnErrors(errors, snap.resolved, raw);
  }

  // ---------------------------------------------------------------------
  // Independence and scenarios
  // ---------------------------------------------------------------------

  /** The keys only the advisory rules read. */
  predicate IsWarningKey(k: Key)
  {
    k == AuthUserSessionVariableFields || k == AuthJwtCustomClaims || k == AuthEmailTemplateFetchUrl
  }

  /**
   The advisory rules never add to the errors: changing the warning keys or
   the custom-claims parser leaves the error list as it was.
   */
  lemma WarningInputsNeverAffectErrors(s1: Snapshot, s2: Snapshot, p1: string -> bool, p2: string -> bool)
    requires s1.resolved == s2.resolved
    requires forall k :: !IsWarningKey(k) ==> Lookup(s1.raw, k) == Lookup(s2.raw, k)
    ensures Evaluate(s1, p1).errors == Evaluate(s2, p2).errors
  {
    RequiredErrorsAgree(s1.raw, s2.raw);
    SmsErrorsAgree(s1.resolved.smsProvider, s1.raw, s2.raw);
    assert WebauthnErrors(s1.resolved, s1.raw) == WebauthnErrors(s2.resolved, s2.raw) by {
      assert !IsWarningKey(AuthWebauthnRpOrigins) && !IsWarningKey(AuthClientUrl);
    }
  }

  /** The required-key rule reads no warning key. */
  lemma RequiredErrorsAgree(r1: RawEnv, r2: RawEnv)
    requires forall k :: !IsWarningKey(k) ==> Lookup(r1, k) == Lookup(r2, k)
    ensures RequiredErrors(r1) == RequiredErrors(r2)
  {
    MissingKeysAgree(Always, RequiredKeys, r1, r2);
  }

  /** The SMS rule reads no warning key. */
  lemma SmsErrorsAgree(selector: Option<string>, r1: RawEnv, r2: RawEnv)
    requires forall k :: !IsWarningKey(k) ==> Lookup(r1, k) == Lookup(r2, k)
    ensures SmsErrors(selector, r1) == SmsErrors(selector, r2)
  {
    match Classify(selector)
    case NoProvider =>
    case Unrecognised(_) =>
    case Known(p) =>
      MissingKeysAgree(ForProvider(p), ProviderKeys(p), r1, r2);
  }

  /** A required-key loop only reads the keys it lists. */
  lemma {:induction false} MissingKeysAgree(req: Requirement, keys: seq<Key>, r1: RawEnv, r2: RawEnv)
    requires forall k :: k in keys ==> Lookup(r1, k) == Lookup(r2, k)
    ensures MissingKeys(req, keys, r1) == MissingKeys(req, keys, r2)
  {
    if |keys| > 0 {
      MissingKeysAgree(req, keys[1..], r1, r2);
    }
  }

  /**
   All four required keys set and no SMS provider selected: the selector is
   reported, no required key is, and no warning concerns SMS.
   */
  lemma ScenarioNoSmsProvider(snap: Snapshot, parses: string -> bool)
    requires forall k :: k in RequiredKeys ==> !IsUnset(Lookup(snap.raw, k))
    requires snap.resolved.smsProvider == None
    ensures IncorrectSmsProvider(None) in Evaluate(snap, parses).errors
    ensures forall d :: d in Evaluate(snap, parses).errors ==> !(d.Missing? && d.req == Always)
    ensures forall d :: d in Evaluate(snap, parses).warnings ==> !d.IncorrectSmsProvider? && !d.Missing?
  {
  }

  /**
   Alicloud selected with its five credentials set: no SMS error, whatever
   Twilio credential happens to be set as well.
   */
  lemma ScenarioAlicloudComplete(snap: Snapshot, parses: string -> bool)
    requires snap.resolved.smsProvider == Some("alicloud")
    requires forall k :: k in AlicloudKeys ==> !IsUnset(Lookup(snap.raw, k))
    ensures forall d :: d in Evaluate(snap, parses).errors ==> !d.IncorrectSmsProvider? && !(d.Missing? && d.req.ForProvider?)
  {
    AlicloudChecksOnlyAlicloudKeys(snap.raw);
    WebauthnErrorsExactly(snap.resolved, snap.raw);
    RequiredErrorsExactly(snap.raw);
  }

  /**
   The legacy session-variable setting is set and its replacement is not:
   the first warning is the deprecation notice, and it is not repeated.
   */
  lemma ScenarioLegacySessionFields(snap: Snapshot, parses: string -> bool)
    requires !IsUnset(Lookup(snap.raw, AuthUserSessionVariableFields))
    requires IsUnset(Lookup(snap.raw, AuthJwtCustomClaims))
    ensures Evaluate(snap, parses).warnings[0] == SessionVariableFieldsDeprecated
    ensures SessionVariableFieldsDeprecated !in Evaluate(snap, parses).warnings[1..]
  {
    var w := Warnings(snap.raw, parses);
    assert w == [SessionVariableFieldsDeprecated] + w[1..];
    assert forall i :: 1 <= i < |w| ==> w[i] == EmailTemplateFetchUrlDeprecated;
  }

  /**
   WebAuthn on, client URL set in both views, relying-party name and allowed
   origins unset: the only WebAuthn error is the missing relying-party name.
   */
  lemma ScenarioOnlyRpNameMissing(snap: Snapshot)
    requires snap.resolved.webauthnEnabled
    requires !IsUnset(snap.resolved.clientUrl) && !IsUnset(Lookup(snap.raw, AuthClientUrl))
    requires IsUnset(snap.resolved.webauthnRpName)
    requires IsUnset(Lookup(snap.raw, AuthWebauthnRpOrigins))
    ensures WebauthnErrors(snap.resolved, snap.raw) == [Missing(ForWebauthn, AuthWebauthnRpName)]
  {
  }
}
