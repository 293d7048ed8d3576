/**
 The validation rules of the startup configuration check.

 Every rule is a pure function of the snapshot returning the diagnostics it
 raises, in the order the service raises them. No rule reads another rule's
 result, so the evaluator can run all of them and concatenate.
 */
module Rules {
  import opened Env
  import opened Diagnostics

  /** The keys that must always be set, in the order they are checked. */
  const RequiredKeys: seq<Key> :=
    [HasuraGraphqlJwtSecret, HasuraGraphqlGraphqlUrl, HasuraGraphqlAdminSecret, HasuraGraphqlDatabaseUrl]

  /** The credentials the Twilio SMS provider needs. */
  const TwilioKeys: seq<Key> :=
    [AuthSmsTwilioAccountSid, AuthSmsTwilioAuthToken, AuthSmsTwilioMessagingServiceId]

  /** The credentials the Alicloud SMS provider needs. */
  const AlicloudKeys: seq<Key> :=
    [AuthSmsAlicloudAccessKeyId, AuthSmsAlicloudAccessKeySecret, AuthSmsAlicloudEndpoint,
     AuthSmsAlicloudTemplateCodeDefault, AuthSmsAlicloudSignNameDefault]

  function ProviderKeys(p: SmsProvider): seq<Key>
  {
    match p
    case Twilio => TwilioKeys
    case Alicloud => AlicloudKeys
  }

  /** The selector value that picks a provider. */
  function ProviderName(p: SmsProvider): string
  {
    match p
    case Twilio => "twilio"
    case Alicloud => "alicloud"
  }

  ghost predicate Distinct<T>(s: seq<T>)
  {
    forall i, j :: 0 <= i < j < |s| ==> s[i] != s[j]
  }

  /** Where `k` first occurs in `keys`, or `|keys|` when it does not. */
  function KeyRank(keys: seq<Key>, k: Key): (r: nat)
    ensures r <= |keys|
    ensures r < |keys| <==> k in keys
    ensures r < |keys| ==> keys[r] == k
    ensures forall i :: 0 <= i < r ==> keys[i] != k
  {
    if |keys| == 0 then 0
    else if keys[0] == k then 0
    else 1 + KeyRank(keys[1..], k)
  }

  lemma KeyRankOfDistinct(keys: seq<Key>, i: int)
    requires Distinct(keys)
    requires 0 <= i < |keys|
    ensures KeyRank(keys, keys[i]) == i
  {
  }

  // ---------------------------------------------------------------------
  // Required-key sets
  // ---------------------------------------------------------------------

  /** The body of one pass of a required-key loop: flag `k` if it is unset. */
  function CheckKey(req: Requirement, raw: RawEnv, k: Key): seq<Diagnostic>
  {
    if IsUnset(Lookup(raw, k)) then [Missing(req, k)] else []
  }

  /**
   A required-key loop over `keys`: one `Missing(req, k)` error for every key
   that is unset in the raw view, and nothing for the keys that are set.
   */
  function MissingKeys(req: Requirement, keys: seq<Key>, raw: RawEnv): (r: seq<Diagnostic>)
    ensures |r| <= |keys|
    ensures forall i :: 0 <= i < |r| ==> r[i].Missing? && r[i].req == req && r[i].key in keys && IsUnset(Lookup(raw, r[i].key))
  {
    if |keys| == 0 then []
    else
      CheckKey(req, raw, keys[0]) + MissingKeys(req, keys[1..], raw)
  }

  /** A key is reported exactly when it is listed and unset. */
  lemma {:induction false} MissingKeysReportsUnsetKeys(req: Requirement, keys: seq<Key>, raw: RawEnv)
    ensures forall k :: Missing(req, k) in MissingKeys(req, keys, raw) <==> k in keys && IsUnset(Lookup(raw, k))
  {
    if |keys| > 0 {
      MissingKeysReportsUnsetKeys(req, keys[1..], raw);
      assert forall k :: k in keys <==> k == keys[0] || k in keys[1..];
    }
  }

  /** A required-key loop over two lists one after the other is the two loops in turn. */
  lemma {:induction false} MissingKeysAppend(req: Requirement, a: seq<Key>, b: seq<Key>, raw: RawEnv)
    ensures MissingKeys(req, a + b, raw) == MissingKeys(req, a, raw) + MissingKeys(req, b, raw)
  {
    if |a| == 0 {
      assert a + b == b;
    } else {
      assert (a + b)[0] == a[0];
      assert (a + b)[1..] == a[1..] + b;
      MissingKeysAppend(req, a[1..], b, raw);
    }
  }

  /** The keys of a list that are unset in the raw view. */
  ghost function UnsetAmong(keys: seq<Key>, raw: RawEnv): set<Key>
  {
    set k | k in keys && IsUnset(Lookup(raw, k))
  }

  /** Over a list without repeats, there are exactly as many errors as unset keys. */
  lemma {:induction false} MissingKeysCount(req: Requirement, keys: seq<Key>, raw: RawEnv)
    requires Distinct(keys)
    ensures |MissingKeys(req, keys, raw)| == |UnsetAmong(keys, raw)|
  {
    if |keys| == 0 {
      assert UnsetAmong(keys, raw) == {};
    } else {
      var k := keys[0];
      var tail := keys[1..];
      assert Distinct(tail);
      MissingKeysCount(req, tail, raw);
      assert k !in tail;
      if IsUnset(Lookup(raw, k)) {
        assert UnsetAmong(keys, raw) == {k} + UnsetAmong(tail, raw);
      } else {
        assert UnsetAmong(keys, raw) == UnsetAmong(tail, raw);
      }
    }
  }

  /**
   Two unset keys are reported in the order they are listed: an error for
   the earlier key occurs before an error for the later one.
   */
  lemma MissingKeysInListOrder(req: Requirement, keys: seq<Key>, raw: RawEnv, i: int, j: int)
    returns (p: nat, q: nat)
    requires 0 <= i < j < |keys|
    requires IsUnset(Lookup(raw, keys[i])) && IsUnset(Lookup(raw, keys[j]))
    ensures p < q < |MissingKeys(req, keys, raw)|
    ensures MissingKeys(req, keys, raw)[p] == Missing(req, keys[i])
    ensures MissingKeys(req, keys, raw)[q] == Missing(req, keys[j])
  {
    var front, back := keys[..j], keys[j..];
    var r1, r2 := MissingKeys(req, front, raw), MissingKeys(req, back, raw);
    assert MissingKeys(req, keys, raw) == r1 + r2 by {
      assert keys == front + back;
      MissingKeysAppend(req, front, back, raw);
    }
    assert Missing(req, keys[i]) in r1 by {
      assert keys[i] == front[i];
      MissingKeysReportsUnsetKeys(req, front, raw);
    }
    assert Missing(req, keys[j]) in r2 by {
      assert keys[j] == back[0];
      MissingKeysReportsUnsetKeys(req, back, raw);
    }
    p :| 0 <= p < |r1| && r1[p] == Missing(req, keys[i]);
    var q2 :| 0 <= q2 < |r2| && r2[q2] == Missing(req, keys[j]);
    q := |r1| + q2;
  }

  /** The unconditional required-key check, in the listed key order. */
  function RequiredErrors(raw: RawEnv): (r: seq<Diagnostic>)
    ensures forall i :: 0 <= i < |r| ==> r[i].Missing? && r[i].req == Always && r[i].key in RequiredKeys
    ensures |r| == |UnsetAmong(RequiredKeys, raw)|
  {
    MissingKeysCount(Always, RequiredKeys, raw);
    MissingKeys(Always, RequiredKeys, raw)
  }

  /** The required-key rule, one diagnostic at a time. */
  ghost predicate RequiredViolated(raw: RawEnv, d: Diagnostic)
  {
    d.Missing? && d.req == Always && d.key in RequiredKeys && IsUnset(Lookup(raw, d.key))
  }

  /** Each unset required key is reported, and nothing else is; set keys contribute nothing. */
  lemma RequiredErrorsExactly(raw: RawEnv)
    ensures forall d :: d in RequiredErrors(raw) <==> RequiredViolated(raw, d)
  {
    MissingKeysReportsUnsetKeys(Always, RequiredKeys, raw);
  }

  // ---------------------------------------------------------------------
  // SMS provider
  // ---------------------------------------------------------------------

  /**
   How the validator reads the SMS provider selector: a falsy value selects
   nothing, `twilio` and `alicloud` select a provider, and any other
   non-empty string is not recognised.
   */
  datatype Selector = NoProvider | Known(p: SmsProvider) | Unrecognised(value: string)

  function Classify(v: Option<string>): (s: Selector)
    ensures s.NoProvider? <==> IsUnset(v)
    ensures s == Known(Twilio) <==> v == Some("twilio")
    ensures s == Known(Alicloud) <==> v == Some("alicloud")
    ensures s.Known? ==> v == Some(ProviderName(s.p))
    ensures s.Unrecognised? <==> !IsUnset(v) && v != Some("twilio") && v != Some("alicloud")
    ensures s.Unrecognised? ==> v == Some(s.value)
  {
    if !Truthy(v) then NoProvider
    else if v.value == "twilio" then Known(Twilio)
    else if v.value == "alicloud" then Known(Alicloud)
    else Unrecognised(v.value)
  }

  /**
   The SMS provider check: a falsy selector is one error quoting it; a
   recognised provider has its own credentials checked and no other; an
   unrecognised selector raises nothing.
   */
  function SmsErrors(selector: Option<string>, raw: RawEnv): (r: seq<Diagnostic>)
    ensures IsUnset(selector) ==> r == [IncorrectSmsProvider(selector)]
    ensures !IsUnset(selector) ==> forall i :: 0 <= i < |r| ==> r[i].Missing?
    ensures selector == Some("twilio") ==> r == MissingKeys(ForProvider(Twilio), TwilioKeys, raw)
    ensures selector == Some("alicloud") ==> r == MissingKeys(ForProvider(Alicloud), AlicloudKeys, raw)
    ensures Classify(selector).Unrecognised? ==> r == []
    ensures |r| <= |AlicloudKeys|
  {
    match Classify(selector)
    case NoProvider => [IncorrectSmsProvider(selector)]
    case Known(p) => MissingKeys(ForProvider(p), ProviderKeys(p), raw)
    case Unrecognised(_) => []
  }

  /**
   The SMS rule, one diagnostic at a time: a falsy selector is reported as
   it is, and a listed credential of the provider the selector names is
   reported when unset.
   */
  ghost predicate SmsViolated(selector: Option<string>, raw: RawEnv, d: Diagnostic)
  {
    match d
    case IncorrectSmsProvider(v) => IsUnset(selector) && v == selector
    case Missing(ForProvider(p), k) =>
      selector == Some(ProviderName(p)) && k in ProviderKeys(p) && IsUnset(Lookup(raw, k))
    case _ => false
  }

  lemma SmsErrorsExactly(selector: Option<string>, raw: RawEnv)
    ensures forall d :: d in SmsErrors(selector, raw) <==> SmsViolated(selector, raw, d)
  {
    match Classify(selector)
    case NoProvider =>
    case Unrecognised(_) =>
    case Known(p) =>
      ProviderErrorsExactly(p, raw);
  }

  /** With a provider selected, its unset credentials are exactly the errors. */
  lemma ProviderErrorsExactly(p: SmsProvider, raw: RawEnv)
    ensures forall d :: d in SmsErrors(Some(ProviderName(p)), raw) <==> SmsViolated(Some(ProviderName(p)), raw, d)
  {
    var r := MissingKeys(ForProvider(p), ProviderKeys(p), raw);
    assert SmsErrors(Some(ProviderName(p)), raw) == r;
    MissingKeysReportsUnsetKeys(ForProvider(p), ProviderKeys(p), raw);
    forall d | d in r
      ensures d == Missing(ForProvider(p), d.key)
    {
      var i :| 0 <= i < |r| && r[i] == d;
    }
  }

  /** With Twilio selected, only Twilio credentials are ever reported. */
  lemma TwilioChecksOnlyTwilioKeys(raw: RawEnv)
    ensures forall d :: d in SmsErrors(Some("twilio"), raw) ==>
              d.Missing? && d.req == ForProvider(Twilio) && d.key in TwilioKeys && d.key !in AlicloudKeys
    ensures forall k :: k in TwilioKeys ==>
              (Missing(ForProvider(Twilio), k) in SmsErrors(Some("twilio"), raw) <==> IsUnset(Lookup(raw, k)))
  {
    MissingKeysReportsUnsetKeys(ForProvider(Twilio), TwilioKeys, raw);
  }

  /** With Alicloud selected, only Alicloud credentials are ever reported. */
  lemma AlicloudChecksOnlyAlicloudKeys(raw: RawEnv)
    ensures forall d :: d in SmsErrors(Some("alicloud"), raw) ==>
              d.Missing? && d.req == ForProvider(Alicloud) && d.key in AlicloudKeys && d.key !in TwilioKeys
    ensures forall k :: k in AlicloudKeys ==>
              (Missing(ForProvider(Alicloud), k) in SmsErrors(Some("alicloud"), raw) <==> IsUnset(Lookup(raw, k)))
  {
    MissingKeysReportsUnsetKeys(ForProvider(Alicloud), AlicloudKeys, raw);
  }

  /**
   The selector error lists the supported providers, yet it can only ever
   quote `undefined` or the empty string: a non-empty selector never
   reaches it.
   */
  lemma SelectorErrorQuotesOnlyUnsetValues(selector: Option<string>, raw: RawEnv)
    ensures forall d :: d in SmsErrors(selector, raw) && d.IncorrectSmsProvider? ==>
              d.value == None || d.value == Some("")
  {
  }

  /** A non-empty selector naming no known provider passes without any error. */
  lemma UnrecognisedSelectorRaisesNothing(value: string, raw: RawEnv)
    requires value != "" && value != "twilio" && value != "alicloud"
    ensures SmsErrors(Some(value), raw) == []
  {
  }

  // ---------------------------------------------------------------------
  // WebAuthn
  // ---------------------------------------------------------------------

  /**
   The WebAuthn check, only when the feature is on: the resolved client URL
   and relying-party name must each be set, and at least one of the raw
   allowed origins and raw client URL must be set.
   */
  function WebauthnErrors(env: Resolved, raw: RawEnv): (r: seq<Diagnostic>)
    ensures !env.webauthnEnabled ==> r == []
    ensures |r| <= 3
    ensures forall i :: 0 <= i < |r| ==>
              r[i] == Missing(ForWebauthn, AuthClientUrl) || r[i] == Missing(ForWebauthn, AuthWebauthnRpName) || r[i] == WebauthnOriginUnset
  {
    if !env.webauthnEnabled then []
    else
      (if IsUnset(env.clientUrl) then [Missing(ForWebauthn, AuthClientUrl)] else [])
      + (if IsUnset(env.webauthnRpName) then [Missing(ForWebauthn, AuthWebauthnRpName)] else [])
      + (if IsUnset(Lookup(raw, AuthWebauthnRpOrigins)) && IsUnset(Lookup(raw, AuthClientUrl))
         then [WebauthnOriginUnset] else [])
  }

  /**
   The WebAuthn rule, one diagnostic at a time: with the feature on, the
   resolved client URL and relying-party name are each required, and the
   raw allowed origins and raw client URL are required together.
   */
  ghost predicate WebauthnViolated(env: Resolved, raw: RawEnv, d: Diagnostic)
  {
    && env.webauthnEnabled
    && match d
       case Missing(ForWebauthn, AuthClientUrl) => IsUnset(env.clientUrl)
       case Missing(ForWebauthn, AuthWebauthnRpName) => IsUnset(env.webauthnRpName)
       case WebauthnOriginUnset =>
         IsUnset(Lookup(raw, AuthWebauthnRpOrigins)) && IsUnset(Lookup(raw, AuthClientUrl))
       case _ => false
  }

  lemma WebauthnErrorsExactly(env: Resolved, raw: RawEnv)
    ensures forall d :: d in WebauthnErrors(env, raw) <==> WebauthnViolated(env, raw, d)
  {
    var r := WebauthnErrors(env, raw);
    forall d | d in r
      ensures WebauthnViolated(env, raw, d)
    {
      var i :| 0 <= i < |r| && r[i] == d;
    }
  }

  /**
   With allowed origins set, the OR-group is satisfied, yet a missing
   resolved client URL is still reported on its own.
   */
  lemma OriginsSatisfyOrGroup(env: Resolved, raw: RawEnv)
    requires env.webauthnEnabled
    requires !IsUnset(Lookup(raw, AuthWebauthnRpOrigins))
    requires IsUnset(env.clientUrl)
    ensures WebauthnOriginUnset !in WebauthnErrors(env, raw)
    ensures Missing(ForWebauthn, AuthClientUrl) in WebauthnErrors(env, raw)
  {
  }

  /** One client URL missing from both views raises two errors. */
  lemma MissingClientUrlRaisesTwo(env: Resolved, raw: RawEnv)
    requires env.webauthnEnabled
    requires IsUnset(env.clientUrl) && IsUnset(Lookup(raw, AuthClientUrl))
    requires IsUnset(Lookup(raw, AuthWebauthnRpOrigins))
    ensures Missing(ForWebauthn, AuthClientUrl) in WebauthnErrors(env, raw)
    ensures WebauthnOriginUnset in WebauthnErrors(env, raw)
    ensures |WebauthnErrors(env, raw)| >= 2
  {
  }

  // ---------------------------------------------------------------------
  // Warnings
  // ---------------------------------------------------------------------

  /**
   The advisory checks: the legacy session-variable setting, a custom-claims
   value that `parses` rejects, and the email-template URL.
   `parses` stands for the service's structured-value parser.
   */
  function Warnings(raw: RawEnv, parses: string -> bool): (w: seq<Diagnostic>)
    ensures |w| <= 3
    ensures forall i :: 0 <= i < |w| ==> w[i].Severity() == Warning
    ensures SessionVariableFieldsDeprecated in w <==> !IsUnset(Lookup(raw, AuthUserSessionVariableFields))
    ensures CustomClaimsUnparsable in w <==>
              !IsUnset(Lookup(raw, AuthJwtCustomClaims)) && !parses(Lookup(raw, AuthJwtCustomClaims).value)
    ensures EmailTemplateFetchUrlDeprecated in w <==> !IsUnset(Lookup(raw, AuthEmailTemplateFetchUrl))
  {
    var claims := Lookup(raw, AuthJwtCustomClaims);
    (if Truthy(Lookup(raw, AuthUserSessionVariableFields)) then [SessionVariableFieldsDeprecated] else [])
    + (if Truthy(claims) && !parses(claims.value) then [CustomClaimsUnparsable] else [])
    + (if Truthy(Lookup(raw, AuthEmailTemplateFetchUrl)) then [EmailTemplateFetchUrlDeprecated] else [])
  }

  // ---------------------------------------------------------------------
  // Source order
  // ---------------------------------------------------------------------

  /**
   The position of a diagnostic's check in the source: warnings in the
   order of their rules; errors by required key (0 to 3), then SMS (the
   selector at 4, credentials from 4 to 8), then WebAuthn (9 to 11). Only
   diagnostics of one list are ever compared.
   */
  function Rank(d: Diagnostic): nat
  {
    match d
    case SessionVariableFieldsDeprecated => 0
    case CustomClaimsUnparsable => 1
    case EmailTemplateFetchUrlDeprecated => 2
    case Missing(Always, k) => KeyRank(RequiredKeys, k)
    case IncorrectSmsProvider(_) => |RequiredKeys|
    case Missing(ForProvider(p), k) => |RequiredKeys| + KeyRank(ProviderKeys(p), k)
    case Missing(ForWebauthn, k) => if k == AuthClientUrl then 9 else 10
    case WebauthnOriginUnset => 11
  }

  /** Strictly increasing in source order, so also free of repeats. */
  predicate Ascending(ds: seq<Diagnostic>)
  {
    forall i, j :: 0 <= i < j < |ds| ==> Rank(ds[i]) < Rank(ds[j])
  }

  lemma AscendingIsDistinct(ds: seq<Diagnostic>)
    requires Ascending(ds)
    ensures Distinct(ds)
  {
  }

  lemma AscendingConcat(a: seq<Diagnostic>, b: seq<Diagnostic>)
    requires Ascending(a) && Ascending(b)
    requires forall x, y :: x in a && y in b ==> Rank(x) < Rank(y)
    ensures Ascending(a + b)
  {
    forall i, j | 0 <= i < j < |a + b|
      ensures Rank((a + b)[i]) < Rank((a + b)[j])
    {
      if j < |a| {
      } else if i < |a| {
        assert (a + b)[i] in a && (a + b)[j] in b;
      } else {
        assert (a + b)[i] == b[i - |a|] && (a + b)[j] == b[j - |a|];
      }
    }
  }

  /** A required-key loop over keys listed in source order reports in source order. */
  lemma {:induction false} MissingKeysAscending(req: Requirement, keys: seq<Key>, raw: RawEnv)
    requires forall i, j :: 0 <= i < j < |keys| ==> Rank(Missing(req, keys[i])) < Rank(Missing(req, keys[j]))
    ensures Ascending(MissingKeys(req, keys, raw))
  {
    if |keys| > 0 {
      var tail := keys[1..];
      MissingKeysAscending(req, tail, raw);
      var head := CheckKey(req, raw, keys[0]);
      forall x, y | x in head && y in MissingKeys(req, tail, raw)
        ensures Rank(x) < Rank(y)
      {
        var j :| 0 <= j < |tail| && tail[j] == y.key;
        assert keys[j + 1] == y.key;
      }
      AscendingConcat(head, MissingKeys(req, tail, raw));
    }
  }

  /**
   When the ranks of a list's keys count up from `base` in list order, the
   loop's errors are ascending and their ranks stay in that block.
   */
  lemma RankedKeysReportAscending(req: Requirement, keys: seq<Key>, raw: RawEnv, base: nat)
    requires Distinct(keys)
    requires forall k :: k in keys ==> Rank(Missing(req, k)) == base + KeyRank(keys, k)
    ensures Ascending(MissingKeys(req, keys, raw))
    ensures forall d :: d in MissingKeys(req, keys, raw) ==> base <= Rank(d) < base + |keys|
  {
    forall i, j | 0 <= i < j < |keys|
      ensures Rank(Missing(req, keys[i])) < Rank(Missing(req, keys[j]))
    {
      KeyRankOfDistinct(keys, i);
      KeyRankOfDistinct(keys, j);
    }
    MissingKeysAscending(req, keys, raw);
  }

  /** The required-key errors come in key order, before every other error. */
  lemma RequiredErrorsAscending(raw: RawEnv)
    ensures Ascending(RequiredErrors(raw))
    ensures forall d :: d in RequiredErrors(raw) ==> Rank(d) < |RequiredKeys|
  {
    RankedKeysReportAscending(Always, RequiredKeys, raw, 0);
  }

  /** The SMS errors come in credential order, after every required-key error. */
  lemma SmsErrorsAscending(selector: Option<string>, raw: RawEnv)
    ensures Ascending(SmsErrors(selector, raw))
    ensures forall d :: d in SmsErrors(selector, raw) ==> |RequiredKeys| <= Rank(d) < |RequiredKeys| + |AlicloudKeys|
  {
    match Classify(selector)
    case NoProvider =>
    case Unrecognised(_) =>
    case Known(p) =>
      RankedKeysReportAscending(ForProvider(p), ProviderKeys(p), raw, |RequiredKeys|);
  }

  /** The WebAuthn errors come in check order, after every SMS error. */
  lemma WebauthnErrorsAscending(env: Resolved, raw: RawEnv)
    ensures Ascending(WebauthnErrors(env, raw))
    ensures forall d :: d in WebauthnErrors(env, raw) ==> 9 <= Rank(d)
  {
  }

  /** The warnings come in rule order, each at most once. */
  lemma WarningsAscending(raw: RawEnv, parses: string -> bool)
    ensures Ascending(Warnings(raw, parses))
  {
  }
}
