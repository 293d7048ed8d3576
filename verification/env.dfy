/**
 The configuration snapshot the startup validator reads.

 The validator reads two views of the environment, and the model keeps them
 apart because nothing forces them to agree:
 - the raw view, the process environment as it was handed to the service:
   a map from variable name to value, where a missing name is `undefined`;
 - the resolved view, the service's own typed configuration object, which
   holds the SMS provider selector, the WebAuthn feature flag, the client URL
   and the WebAuthn relying-party name.
 */
module Env {

  /** A value that may be absent (`undefined` in the source). */
  datatype Option<+T> = None | Some(value: T)

  /** Every configuration variable the validator mentions. */
  datatype Key =
    | AuthUserSessionVariableFields
    | AuthJwtCustomClaims
    | HasuraGraphqlJwtSecret
    | HasuraGraphqlGraphqlUrl
    | HasuraGraphqlAdminSecret
    | HasuraGraphqlDatabaseUrl
    | AuthEmailTemplateFetchUrl
    | AuthSmsProvider
    | AuthSmsTwilioAccountSid
    | AuthSmsTwilioAuthToken
    | AuthSmsTwilioMessagingServiceId
    | AuthSmsAlicloudAccessKeyId
    | AuthSmsAlicloudAccessKeySecret
    | AuthSmsAlicloudEndpoint
    | AuthSmsAlicloudTemplateCodeDefault
    | AuthSmsAlicloudSignNameDefault
    | AuthWebauthnEnabled
    | AuthClientUrl
    | AuthWebauthnRpName
    | AuthWebauthnRpOrigins

  /** The environment-variable name of a key. */
  function Name(k: Key): string
  {
    match k
    case AuthUserSessionVariableFields => "AUTH_USER_SESSION_VARIABLE_FIELDS"
    case AuthJwtCustomClaims => "AUTH_JWT_CUSTOM_CLAIMS"
    case HasuraGraphqlJwtSecret => "HASURA_GRAPHQL_JWT_SECRET"
    case HasuraGraphqlGraphqlUrl => "HASURA_GRAPHQL_GRAPHQL_URL"
    case HasuraGraphqlAdminSecret => "HASURA_GRAPHQL_ADMIN_SECRET"
    case HasuraGraphqlDatabaseUrl => "HASURA_GRAPHQL_DATABASE_URL"
    case AuthEmailTemplateFetchUrl => "AUTH_EMAIL_TEMPLATE_FETCH_URL"
    case AuthSmsProvider => "AUTH_SMS_PROVIDER"
    case AuthSmsTwilioAccountSid => "AUTH_SMS_TWILIO_ACCOUNT_SID"
    case AuthSmsTwilioAuthToken => "AUTH_SMS_TWILIO_AUTH_TOKEN"
    case AuthSmsTwilioMessagingServiceId => "AUTH_SMS_TWILIO_MESSAGING_SERVICE_ID"
    case AuthSmsAlicloudAccessKeyId => "AUTH_SMS_ALICLOUD_ACCESS_KEY_ID"
    case AuthSmsAlicloudAccessKeySecret => "AUTH_SMS_ALICLOUD_ACCESS_KEY_SECRET"
    case AuthSmsAlicloudEndpoint => "AUTH_SMS_ALICLOUD_ENDPOINT"
    case AuthSmsAlicloudTemplateCodeDefault => "AUTH_SMS_ALICLOUD_TEMPLATE_CODE_DEFAULT"
    case AuthSmsAlicloudSignNameDefault => "AUTH_SMS_ALICLOUD_SIGN_NAME_DEFAULT"
    case AuthWebauthnEnabled => "AUTH_WEBAUTHN_ENABLED"
    case AuthClientUrl => "AUTH_CLIENT_URL"
    case AuthWebauthnRpName => "AUTH_WEBAUTHN_RP_NAME"
    case AuthWebauthnRpOrigins => "AUTH_WEBAUTHN_RP_ORIGINS"
  }

  /**
   The raw process environment, restricted to the variables the validator
   reads: a key that is not in the map is `undefined`.
   */
  type RawEnv = map<Key, string>

  /** Reads a key from the raw view (`process.env[name]`). */
  function Lookup(raw: RawEnv, k: Key): (v: Option<string>)
    ensures v.Some? <==> k in raw
    ensures v.Some? ==> v.value == raw[k]
  {
    if k in raw then Some(raw[k]) else None
  }

  /**
   The source's `isUnset`: a value is unset when it is `undefined` or the
   empty string; every non-empty string counts as set.
   */
  predicate IsUnset(v: Option<string>)
  {
    match v
    case None => true
    case Some(s) => |s| == 0
  }

  /**
   JavaScript truthiness of a value of type `string | undefined`, which is
   how `if (process.env.X)` and `if (ENV.X)` test a string.
   */
  predicate Truthy(v: Option<string>)
  {
    v.Some? && v.value != ""
  }

  /** The resolved view of the four settings the validator reads from it. */
  datatype Resolved = Resolved(
    smsProvider: Option<string>,
    webauthnEnabled: bool,
    clientUrl: Option<string>,
    webauthnRpName: Option<string>)

  /** One validation pass reads this snapshot and nothing else. */
  datatype Snapshot = Snapshot(raw: RawEnv, resolved: Resolved)

  /** `isUnset` holds exactly for `undefined` and `""`. */
  lemma IsUnsetExactly(v: Option<string>)
    ensures IsUnset(v) <==> v == None || v == Some("")
    ensures !IsUnset(v) <==> v.Some? && |v.value| > 0
  {
  }

  /** A string is truthy exactly when `isUnset` rejects it. */
  lemma TruthyIsSet(v: Option<string>)
    ensures Truthy(v) <==> !IsUnset(v)
  {
  }
}
