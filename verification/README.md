# hasura-auth startup configuration check, modelled in Dafny

hasura-auth validates its configuration once, when `src/env-vars-check.ts` is
loaded. The check reads a snapshot of configuration keys. It runs a fixed
sequence of independent checks, and each check may append to an `errors` list
or a `warnings` list. No check stops the run early. At the end the service
either aborts with every error joined into one log entry, or carries on and
logs each warning.

The model keeps the two views the check reads apart, because nothing forces
them to agree:
- the raw process environment (`process.env`), a map from key to string in
  which a missing key is `undefined`;
- the resolved configuration object (`ENV`), of which the check reads the SMS
  provider selector, the WebAuthn flag, the client URL and the WebAuthn
  relying-party name.

Modules:
- `Env` (env.dfy): keys, the two views, `isUnset` and JavaScript truthiness.
- `Text` (text.dfy): `Array.prototype.join` and a line splitter, with the
  round trip between them.
- `Diagnostics` (diagnostics.dfy): structured diagnostics, their severity and
  their one-line rendering.
- `Rules` (rules.dfy): each check as a pure function. Beside each one is a
  declarative predicate saying one diagnostic at a time when it is raised, and
  a lemma proving the two agree. A rank function gives each check its place in
  the source, so "in source order" can be stated.
- `Validator` (validator.dfy): the whole pass (`Evaluate`), the abort/proceed
  decision (`Decide`, `Validate`), and the check as the source writes it
  (methods that push onto lists). It also has proofs that the two forms agree,
  that the advisory checks never affect the outcome, and worked scenarios.

The model follows the SMS check as the code is written. The "incorrect SMS
provider" error text (line 80) says the value "is not one of the supported"
and lists 'twilio' and 'alicloud'. But the error is the `else` of the
truthiness test at line 48, so it is raised only for an empty or `undefined`
selector and can only quote `undefined` or the empty string. A non-empty
value other than the two supported providers passes without any error.
`Rules.SelectorErrorQuotesOnlyUnsetValues` and
`Rules.UnrecognisedSelectorRaisesNothing` state this behaviour.

## Model

| member | source | states |
|---|---|---|
| Env.IsUnset | src/env-vars-check.ts:5-9 | the source's `isUnset` on a value that may be `undefined`; its meaning, both directions, is stated by Env.IsUnsetExactly |
| Env.IsUnsetExactly | src/env-vars-check.ts:5-9 | a value is unset exactly when it is `undefined` or the empty string; any non-empty string is set |
| Env.TruthyIsSet | src/env-vars-check.ts:14 | testing a string for truthiness, as the advisory checks and the SMS check do, agrees with `!isUnset` |
| Rules.MissingKeys | src/env-vars-check.ts:36-40 | a required-key loop reports at most one error per listed key; every error names a listed key that is unset, with the loop's reason |
| Rules.MissingKeysReportsUnsetKeys | src/env-vars-check.ts:36-40 | a key is reported by the loop if and only if it is listed and unset |
| Rules.MissingKeysAppend | src/env-vars-check.ts:36-40 | running the loop over two lists in turn gives the two loops' errors one after the other |
| Rules.MissingKeysCount | src/env-vars-check.ts:31-40 | over a list without repeats, there are exactly as many errors as unset keys |
| Rules.MissingKeysInListOrder | src/env-vars-check.ts:31-40 | of two unset keys, the one listed first is reported first |
| Rules.RequiredErrors | src/env-vars-check.ts:31-40 | the unconditional check reports only the four HASURA keys, one error per unset key |
| Rules.RequiredErrorsExactly | src/env-vars-check.ts:31-40 | an error is raised for a HASURA key if and only if it is unset in the raw view |
| Rules.RequiredErrorsAscending | src/env-vars-check.ts:31-40 | the required-key errors come in list order, before any other error |
| Rules.Classify | src/env-vars-check.ts:48-82 | the selector selects nothing if and only if it is unset, Twilio if and only if it is "twilio", Alicloud if and only if it is "alicloud", and is unrecognised otherwise |
| Rules.SmsErrors | src/env-vars-check.ts:48-82 | an unset selector is one error quoting it; "twilio" and "alicloud" check their own credentials only; any other value raises nothing |
| Rules.SmsErrorsExactly | src/env-vars-check.ts:48-82 | an SMS error is raised if and only if the selector is unset (and quoted as it is), or a credential of the selected provider is unset |
| Rules.ProviderErrorsExactly | src/env-vars-check.ts:49-76 | with a provider selected, the errors are exactly that provider's unset credentials |
| Rules.TwilioChecksOnlyTwilioKeys | src/env-vars-check.ts:49-61 | with "twilio" selected, every error names a Twilio credential and never an Alicloud one, and each Twilio credential is reported if and only if unset |
| Rules.AlicloudChecksOnlyAlicloudKeys | src/env-vars-check.ts:62-76 | with "alicloud" selected, every error names an Alicloud credential and never a Twilio one, and each Alicloud credential is reported if and only if unset |
| Rules.SelectorErrorQuotesOnlyUnsetValues | src/env-vars-check.ts:48-82 | the selector error, though its text lists the supported providers, only ever quotes `undefined` or the empty string |
| Rules.UnrecognisedSelectorRaisesNothing | src/env-vars-check.ts:48-77 | a non-empty selector other than "twilio" and "alicloud" raises no error at all |
| Rules.SmsErrorsAscending | src/env-vars-check.ts:48-82 | the SMS errors come in credential order, after the required-key errors and before the WebAuthn errors |
| Rules.WebauthnErrors | src/env-vars-check.ts:84-103 | with WebAuthn off there is no error; with it on, at most three errors, each the missing client URL, the missing relying-party name or the unset origins |
| Rules.WebauthnErrorsExactly | src/env-vars-check.ts:84-103 | a WebAuthn error is raised if and only if the feature is on and its condition holds: the resolved client URL unset, the resolved relying-party name unset, or both raw origins and raw client URL unset |
| Rules.OriginsSatisfyOrGroup | src/env-vars-check.ts:95-102 | setting the raw allowed origins satisfies the either-or requirement, yet a missing resolved client URL is still reported |
| Rules.MissingClientUrlRaisesTwo | src/env-vars-check.ts:85-102 | a client URL missing from both views, with no origins, raises two separate errors |
| Rules.WebauthnErrorsAscending | src/env-vars-check.ts:84-103 | the WebAuthn errors come in check order, after every SMS error |
| Rules.Warnings | src/env-vars-check.ts:14-46 | at most three warnings: the legacy session-fields notice if and only if that key is set, the custom-claims notice if and only if it is set and does not parse, and the template-URL notice if and only if that key is set |
| Rules.WarningsAscending | src/env-vars-check.ts:14-46 | the warnings come in check order, each at most once |
| Text.Join | src/env-vars-check.ts:106 | joining one message gives the message itself, joining none gives the empty string, and every non-separator character of the result comes from a message |
| Text.Lines | src/env-vars-check.ts:106 | a log splits into at least one line, and no line contains a line break |
| Text.LinesOfJoin | src/env-vars-check.ts:106 | joining single-line messages with newlines and splitting the result gives back exactly the messages, in order |
| Diagnostics.Message | src/env-vars-check.ts:78-81 | every diagnostic renders as one line, unless it is the selector error quoting a value that itself holds a line break |
| Validator.Evaluate | src/env-vars-check.ts:11-103 | the whole pass: the errors are the required-key, SMS and WebAuthn errors concatenated in that order, and the warnings are the advisory check's warnings; its contract bounds them at twelve errors and three warnings |
| Validator.ErrorsAreErrors | src/env-vars-check.ts:31-103 | every entry of the error list is a fatal diagnostic |
| Validator.WarningsAreWarnings | src/env-vars-check.ts:14-46 | every entry of the warning list is an advisory diagnostic |
| Validator.FindingsInSourceOrder | src/env-vars-check.ts:14-103 | both lists are in the order their checks appear in the source, so neither holds a diagnostic twice |
| Validator.ErrorsAreExactlyViolations | src/env-vars-check.ts:31-103 | the error list holds exactly the violated fatal rules, each once, whatever else is wrong; no check is skipped because another failed |
| Validator.ErrorsArePrintable | src/env-vars-check.ts:78-81 | every error raised renders as one line, since a quoted selector is always `undefined` or empty |
| Validator.FatalLogLines | src/env-vars-check.ts:105-106 | a non-empty error list whose messages are all one line, joined with newlines, splits back into exactly those messages |
| Validator.Decide | src/env-vars-check.ts:105-110 | the service aborts if and only if there is an error, and the abort log splits into the error messages; otherwise it logs every warning message once, in order |
| Validator.WarningsNeverDecide | src/env-vars-check.ts:105-110 | warnings never change whether the service aborts, nor what the abort logs |
| Validator.ViolationsHaveMessages | src/env-vars-check.ts:31-106 | the message of every violated rule is among the error messages |
| Validator.MessagesAreViolations | src/env-vars-check.ts:31-106 | every error message is the message of a violated rule |
| Validator.AbortsOnViolation | src/env-vars-check.ts:105-108 | a validation pass aborts if and only if some fatal rule is violated |
| Validator.AbortLogIsViolations | src/env-vars-check.ts:105-106 | an abort log has one line per error, and its lines are exactly the messages of the violated rules |
| Validator.Validate | src/env-vars-check.ts:11-110 | a whole pass aborts if and only if some fatal rule is violated; the abort log has a line for every violated rule and no other line; a pass that carries on logs the message of every warning raised, in check order, at most three |
| Validator.PushMissing | src/env-vars-check.ts:36-40 | the source's `forEach` loop, appending to an existing list, appends exactly the required-key loop's errors |
| Validator.PushSmsErrors | src/env-vars-check.ts:48-82 | the source's nested `if` for the SMS provider appends exactly the SMS check's errors |
| Validator.PushWebauthnErrors | src/env-vars-check.ts:84-103 | the source's WebAuthn block appends exactly the WebAuthn check's errors |
| Validator.CheckEnvironment | src/env-vars-check.ts:11-103 | running the blocks in source order (session fields, custom claims, required keys, template URL, SMS, WebAuthn) over two mutable lists finds the same errors and warnings as the functional pass |
| Validator.WarningInputsNeverAffectErrors | src/env-vars-check.ts:14-46 | changing the three advisory keys or the claims parser leaves the error list unchanged |
| Validator.RequiredErrorsAgree | src/env-vars-check.ts:31-40 | the required-key check reads no advisory key |
| Validator.SmsErrorsAgree | src/env-vars-check.ts:48-82 | the SMS check reads no advisory key |
| Validator.MissingKeysAgree | src/env-vars-check.ts:36-40 | a required-key loop reads only the keys it lists |
| Validator.ScenarioNoSmsProvider | src/env-vars-check.ts:78-82 | all required keys set and no selector: the selector error is raised, no required key is reported, and no warning concerns SMS |
| Validator.ScenarioAlicloudComplete | src/env-vars-check.ts:62-76 | Alicloud selected with its five credentials set: no SMS error, whatever Twilio credential is also set |
| Validator.ScenarioLegacySessionFields | src/env-vars-check.ts:14-19 | the legacy session-fields key set and custom claims unset: the first warning is the deprecation notice, and it is not repeated |
| Validator.ScenarioOnlyRpNameMissing | src/env-vars-check.ts:84-103 | WebAuthn on with the client URL set in both views: a missing relying-party name is the only WebAuthn error, even with the origins unset |

## Left out

- Message text: each diagnostic is rendered as a rule tag followed by the key names, with the selector's value in quotes. The service's English sentences and template interpolation are not reproduced. What is modelled is that each message is one line, and what the newline join does with the messages.
- The logger and the thrown `Error('Invalid configuration')` become the `Outcome` value: `Abort(log)` or `Proceed(emitted)`. Log levels and the exception text are not modelled.
- `castObjectEnv` from `@config` is foreign code. It is the parameter `parses`, a predicate on the raw custom-claims string; the check's only concern is whether it throws.
- How `ENV` is built from the process environment (in `./utils`) is not part of this model. The resolved view is an input, independent of the raw view, so that disagreements between the two are visible.
- The raw view is keyed by the twenty names the check mentions (it reads seventeen of them from `process.env`); other variables cannot affect it.
- The check runs as a side effect of loading the module, once per process. The model is a function of the snapshot, with no state between runs.
- `Resolved.webauthnEnabled` is a boolean: the resolved flag's truthiness is all the check uses.
- The commented "TODO: check environment variable format on startup" at line 15 describes a check the source does not do, so it is not modelled.
