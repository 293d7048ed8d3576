/**
 The diagnostics the validator produces, their severity and their text.

 Each diagnostic is structured (which rule, which key) rather than a bare
 string; `Message` renders it as one line of text naming the rule and the
 keys, in place of the service's English sentences.
 */
module Diagnostics {
  import opened Env
  import opened Text

  /** The SMS providers the validator knows how to check. */
  datatype SmsProvider = Twilio | Alicloud

  /** Why a key was required. */
  datatype Requirement =
    | Always                    // the unconditional required set
    | ForProvider(p: SmsProvider) // the selected SMS provider's credentials
    | ForWebauthn               // WebAuthn is switched on

  datatype Severity = Error | Warning

  datatype Diagnostic =
    | SessionVariableFieldsDeprecated
    | CustomClaimsUnparsable
    | EmailTemplateFetchUrlDeprecated
    | Missing(req: Requirement, key: Key)
    | IncorrectSmsProvider(value: Option<string>)
    | WebauthnOriginUnset
  {
    /** The three deprecation/degradation notices are warnings; the rest are errors. */
    function Severity(): Severity
    {
      match this
      case SessionVariableFieldsDeprecated => Warning
      case CustomClaimsUnparsable => Warning
      case EmailTemplateFetchUrlDeprecated => Warning
      case _ => Error
    }
  }

  /** The value of the selector: `undefined` interpolates as the word "undefined". */
  function Shown(v: Option<string>): string
  {
    match v
    case None => "undefined"
    case Some(s) => s
  }

  /** Why a key was required, as a one-word tag. */
  function RequirementTag(req: Requirement): string
  {
    match req
    case Always => "required"
    case ForProvider(Twilio) => "twilio"
    case ForProvider(Alicloud) => "alicloud"
    case ForWebauthn => "webauthn"
  }

  /**
   The text logged for a diagnostic: a rule tag followed by the names of the
   keys it concerns, and for the selector error the selector's value in
   quotes. Each text is one line, except that a quoted selector value is
   shown as it is.
   */
  function Message(d: Diagnostic): (m: string)
    ensures Printable(d) ==> SingleLine(m)
  {
    match d
    case SessionVariableFieldsDeprecated =>
      OneLine("deprecated " + Name(AuthUserSessionVariableFields) + " " + Name(AuthJwtCustomClaims))
    case CustomClaimsUnparsable =>
      OneLine("unparsable " + Name(AuthJwtCustomClaims))
    case EmailTemplateFetchUrlDeprecated =>
      OneLine("deprecated " + Name(AuthEmailTemplateFetchUrl))
    case Missing(req, k) =>
      OneLine("missing " + Name(k) + " " + RequirementTag(req))
    case IncorrectSmsProvider(v) =>
      OneLine("incorrect " + Name(AuthSmsProvider) + " '") + Shown(v) + "'"
    case WebauthnOriginUnset =>
      OneLine("unset " + Name(AuthWebauthnRpOrigins) + " " + Name(AuthClientUrl))
  }

  /** Renders a list of diagnostics, one message each, in order. */
  function Messages(ds: seq<Diagnostic>): (ms: seq<string>)
    ensures |ms| == |ds|
    ensures forall i :: 0 <= i < |ds| ==> ms[i] == Message(ds[i])
  {
    seq(|ds|, i requires 0 <= i < |ds| => Message(ds[i]))
  }

  /**
   A diagnostic is printable on one line unless it quotes a selector value
   that itself holds a line break.
   */
  predicate Printable(d: Diagnostic)
  {
    !d.IncorrectSmsProvider? || SingleLine(Shown(d.value))
  }

}
