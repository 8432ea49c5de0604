# Account lifecycle of the training app's `user` and `core` apps

This project models, in Dafny, how a user account comes into being and is
admitted to the API:

- **`Util.normalize_email`.** It strips the address, splits it at its last `@`
  and lower-cases the domain part. Python's `strip`, `rsplit('@', 1)` and
  `lower` are defined over ASCII (`util.dfy`).
- **The user table behind `User.objects`.** It is a class over a map from
  stored e-mail to user record. `create_user`, `create_superuser` and `save`
  are its methods (`core_models.dfy`).
- **`UserSerializer`.** Its field rules are those of the serializer
  framework's char and e-mail fields: required, blank, trimmed, no NUL
  character, and length limits from the model columns. The one exception is
  the unique check on `email`. `EmailIssuesAsWritten` is the framework's
  exact-match check as the code has it. `EmailIssues`, which the rest of the
  model uses, keeps that check and also rejects an address whose normalised
  form is stored (the corrected rule, see Findings). Its `create` and `update` are also modelled.
  So is `LoginSerializer.validate`, an ordered chain of checks
  (`user_serializers.dfy`).
- **`RegisterUserView.post`.** It validates, creates the user, and sends
  exactly one verification mail carrying a token for the new id.
  `VerifyEmailView.get` handles a token that decodes, one that has expired,
  and one that does not decode. The login endpoint wraps `validate`
  (`user_views.dfy`).

Options and results live in `outcomes.dfy`.

Some things are parameters of the model:
- the password hasher
- the e-mail syntax check
- the issuer and the decoder of JWT tokens
- the site domain and the reversed verify path

Mail delivery is a ghost outbox: a sequence of the messages handed to the
backend.

The `User` class shown declares no `is_verified` column. The views and
`LoginSerializer` read and write it, and the tests show it starts false, so
the model's record has it with default false.

## Model

| member | source | states |
|---|---|---|
| Util.StripRange | app/user/utils.py:23 | whitespace is `IsSpace`, Python's `isspace` on ASCII (9-13 and 28-32); stripping a range returns a string no longer than the range that is empty or starts and ends with non-whitespace |
| Util.Strip | app/user/utils.py:23 | `strip` returns a string no longer than the input that is empty or starts and ends with non-whitespace |
| Util.StripRangeIsSlice | app/user/utils.py:23 | the stripped range is a slice `s[a..b]` inside it, and everything cut off at either end is whitespace |
| Util.StripIsSlice | app/user/utils.py:23 | the stripped string is a slice `s[a..b]` of the input, and everything cut off before and after it is whitespace |
| Util.StripOfTrimmed | app/user/utils.py:23 | stripping a string with no surrounding whitespace returns it unchanged |
| Util.StripKeepsAts | app/user/utils.py:23 | stripping keeps the number of `@` characters |
| Util.StripKeepsNonSpace | app/user/utils.py:23 | every non-whitespace character of the input survives stripping |
| Util.RSplitAt | app/user/utils.py:22-25 | `rsplit('@', 1)` fails exactly when there is no `@`; otherwise the parts re-join to the input and the second part holds no `@` |
| Util.RSplitAtUnique | app/user/utils.py:23 | the split happens at the last `@`: any decomposition with an `@`-free tail is the one returned |
| Util.LowerChar | app/user/utils.py:27 | ASCII `lower`: upper-case letters move by 32, every other character is kept, `@` is fixed |
| Util.Lower | app/user/utils.py:27 | `lower` applies `LowerChar` at every position and keeps the length |
| Util.LowerFacts | app/user/utils.py:27 | lower-casing is idempotent and neither adds nor removes an `@` |
| Util.NormalizeEmail | app/user/utils.py:16-28 | `normalize_email`: the result is never longer than `email or ''`; its lemmas below give the split at the last `@`, the unchanged address without `@`, idempotence and the kept `@` count |
| Util.LowerAddsNoSymbol | app/user/utils.py:27 | lower-casing brings in no character other than a lower-case letter |
| Util.NormalizeAddsNoSymbol | app/user/utils.py:16-28 | a character that is not a letter (NUL, say) occurs in the normalised address only if it occurs in the input |
| Util.NormalizeEmpty | app/user/utils.py:21-25 | `None` and `""` both normalise to `""` |
| Util.NormalizeWithoutAt | app/user/utils.py:21-28 | an address without `@` comes back exactly as given, not even stripped |
| Util.NormalizeSplitsAtLastAt | app/user/utils.py:17-27 | with an `@`, the result is the stripped text before its last `@` (case kept), the `@`, and the lower-cased `@`-free remainder |
| Util.NormalizeStrippedSplit | app/user/utils.py:23-27 | an already stripped `name@domain` with an `@`-free domain normalises to `name@lower(domain)` |
| Util.NormalizeIsStripped | app/user/utils.py:23 | with an `@`, the result is non-empty, starts and ends with non-whitespace, and strips to itself |
| Util.NormalizeKeepsStripped | app/user/utils.py:21-28 | normalising a stripped address yields a stripped address |
| Util.NormalizeKeepsAtCount | app/user/utils.py:23-27 | the result has as many `@` as the input |
| Util.NormalizeIdempotent | app/user/utils.py:23-27 | normalising a normalised address returns it unchanged |
| Util.Outbox.constructor | app/user/utils.py:6-13 | the backend starts with no messages |
| Util.Outbox.SendEmail | app/user/utils.py:6-13 | `send_email` hands exactly one message (recipient, subject, body) to the backend |
| CoreModels.MakePassword | app/core/models.py:21 | `set_password(pw)` stores a hash that checks against `pw`; `set_password(None)` stores one that checks against nothing |
| CoreModels.CheckPassword | app/user/serializers.py:70-74 | `check_password`, which `authenticate` runs: an unusable hash matches no password |
| CoreModels.CheckMatchesMakePassword | app/core/models.py:21 | a stored hash checks against `raw` exactly when it is salted and equals what `set_password(raw)` stores with the same salt |
| CoreModels.NameOnly | app/user/serializers.py:22 | the serializer passes only `name` as an extra field |
| CoreModels.NewUser | app/core/models.py:19-21 | the new record has the given id, the normalised email, a hash checking against the password, extra fields as given, and otherwise active, non-staff, non-superuser, unverified |
| CoreModels.NewUserDefaults | app/core/models.py:48-49 | without extra fields a new user is active, not staff, not superuser, unverified, with an empty name, and the password checks |
| CoreModels.UserManager.KeyOfId | app/user/views.py:74 | the row with a given primary key is unique |
| CoreModels.UserManager.constructor | app/core/models.py:51 | the table starts empty and satisfies the table invariant |
| CoreModels.UserManager.CreateUser | app/core/models.py:12-26 | no or empty email (`Present`, the `if not email` test): EmailRequired and no change; normalised email already stored: DuplicateEmail and no change; otherwise exactly one new row under the normalised email, all other rows unchanged |
| CoreModels.UserManager.CreateSuperuser | app/core/models.py:28-37 | the same outcomes as `create_user(email, password)`, the stored row differing only in `is_staff` and `is_superuser` being true |
| CoreModels.UserManager.Save | app/core/models.py:35 | saving a row under a new email fails (unique constraint) when another row has it; otherwise the row moves to its email, all others unchanged |
| UserSerializers.LengthIssues | app/user/serializers.py:16 | a length issue is reported exactly when the cleaned value is shorter than the minimum or longer than the maximum |
| UserSerializers.EmailIssuesAsWritten | app/user/serializers.py:9-16 | the email field as the framework runs it (blank test `IsBlank`, NUL validator `NulIssues`) accepts exactly a present, non-blank stripped address without NUL, of at most 255 characters, that passes the e-mail check and is not itself stored |
| UserSerializers.EmailIssues | app/user/serializers.py:9-16 | the email field with the corrected unique check: it accepts exactly a present, non-blank stripped address without NUL, of at most 255 characters, that passes the e-mail check, is not itself stored and whose normalised form is not stored |
| UserSerializers.CorrectionOnlyAddsIssues | app/user/serializers.py:9-16 | every issue the email field reports as written the corrected field reports too: the correction only adds rejections |
| UserSerializers.PasswordIssues | app/user/serializers.py:16 | the password field (through `IsBlank` and `NulIssues`) accepts exactly a present value whose stripped form has 5 to 128 characters and no NUL |
| UserSerializers.NameIssues | app/user/serializers.py:15 | the name field (through `IsBlank` and `NulIssues`) accepts exactly a present value whose stripped form is non-empty, at most 255 characters and has no NUL |
| UserSerializers.ErrorMap | app/user/serializers.py:9-16 | the error map lists exactly the fields with issues, each with its issues |
| UserSerializers.ValidateRegistration | app/user/serializers.py:9-16 | `is_valid` with the corrected unique check of `EmailIssues`: it fails exactly when some field has issues, with those issues; on success the cleaned values are stripped, hold no NUL and meet every field rule, and neither the email nor its normalised form is stored |
| UserSerializers.VerbatimDuplicateRejected | app/user/serializers.py:9-16 | an e-mail whose stripped form is already stored makes `is_valid` fail on `email`, with NotUnique unless the submission is blank |
| UserSerializers.NulRejected | app/user/serializers.py:9-16 | a NUL anywhere in a submitted email, password or name makes `is_valid` fail with an error on that field |
| UserSerializers.ShortPasswordRejected | app/user/serializers.py:16 | a stripped password shorter than 5 characters always makes `is_valid` fail with a password error |
| UserSerializers.CleanEmailIssues | app/user/serializers.py:9-16 | for a stripped, non-empty address within the length limit, only the NUL validator, the e-mail check and the unique check can report issues |
| UserSerializers.UniqueCheckAsWrittenAdmitsDuplicate | app/user/serializers.py:9-16 | the unique check as written reports nothing for an address that is not stored although its normalised form is |
| UserSerializers.UniqueCheckRejectsNormalisedDuplicate | app/user/serializers.py:9-16 | the corrected check reports such an address as not unique, and only that |
| UserSerializers.MixedCaseDomainNormalisesElsewhere | app/user/utils.py:23-27 | a stripped `name@domain` whose domain holds an upper-case letter normalises to a different address, `name@lower(domain)` |
| UserSerializers.DomainCaseMatters | app/user/utils.py:27 | lower-casing changes a domain with an upper-case letter, so the two addresses with the same local part differ |
| UserSerializers.FindingInput | app/user/serializers.py:9-22 | with `name@lower(domain)` stored, an address `name@domain` with an upper-case domain letter passes the unique check as written, normalises to the stored address (so `create_user` answers DuplicateEmail), and the corrected check reports exactly NotUnique |
| UserSerializers.UniqueChecksDisagree | app/user/serializers.py:9-16 | for a clean address whose normalised form, and only that, is stored, the check as written reports nothing and the corrected one reports exactly NotUnique |
| UserSerializers.MixedCaseDomainIsAnInstance | app/user/utils.py:27 | `ann` and `Example.com` meet the premises of `FindingInput` |
| UserSerializers.Represent | app/user/serializers.py:15-16 | the serializer output holds the email and name and no password |
| UserSerializers.Create | app/user/serializers.py:18-22 | `create` gives exactly the outcomes of `create_user` with the cleaned email and password and the name as extra field |
| UserSerializers.Updated | app/user/serializers.py:24-34 | supplied email and name are assigned; a new hash only for a non-empty password (`SetsPassword`, the `if password:` test), otherwise the old one; id, flags and `is_verified` kept |
| UserSerializers.Update | app/user/serializers.py:24-34 | `update` fails without change when the new email belongs to another row; otherwise the row becomes `Updated(...)` under its new email, all other rows unchanged |
| UserSerializers.LoginErrors | app/user/serializers.py:52-57 | login field errors, per field from `LoginIssues`: email missing, blank after trimming or holding a NUL; password missing, empty (not trimmed) or holding a NUL; no errors exactly when neither applies |
| UserSerializers.AuthMessage | app/user/serializers.py:75-83 | the message raised for each failed check, never empty |
| UserSerializers.AuthMessagesDistinct | app/user/serializers.py:75-83 | the three failures have three different messages |
| UserSerializers.Authenticates | app/user/serializers.py:70-74 | `authenticate` with the email as user name: no user for an address not stored or a row with an unusable password; a row under that address whose hash is `set_password(password)` with its salt authenticates |
| UserSerializers.ValidateLogin | app/user/serializers.py:65-89 | bad credentials first, then disabled, then unverified, each exactly under its condition; success exactly when all three pass, returning email, name and tokens of that user |
| UserSerializers.LoginIgnoresStaff | app/user/serializers.py:75-83 | changing `is_staff` or `is_superuser` never changes the login outcome |
| UserViews.VerificationLink | app/user/views.py:36-40 | the link starts with `http://` and ends with `?token=` and the token |
| UserViews.VerificationBody | app/user/views.py:42 | the body starts with `Hello ` and the name and ends with the link |
| UserViews.VerificationMail | app/user/views.py:44-48 | the mail goes to the user's stored address with subject `Verify your email`, and its body ends with the token |
| UserViews.VerificationMailShape | app/user/views.py:40-42 | the body starts with `Hello ` and the name and ends with the link; the link starts with `http://` and ends with `?token=` and the token |
| UserViews.MailTokenNamesUser | app/user/views.py:33-74 | the token cut off the end of the mail body is the one issued for the user, so a decoder inverting the issuer yields the user's id |
| UserViews.Register | app/user/views.py:26-50 | invalid data: 400 with the field errors, no row, no mail; valid data: 201 with the public fields of the new user, exactly one new row, exactly one mail to its stored address with subject `Verify your email` and the verification body |
| UserViews.VerifyEmail | app/user/views.py:66-85 | a decoded token sets `is_verified` of exactly the row with that id and answers 200 `Successfully activated !` (an already verified row stays as it was); expired: 400 `Activation Expired !`; undecodable: 400 `Invalid token`; the table is unchanged on both errors |
| UserViews.LoginView | app/user/views.py:94-98 | 400 exactly on field errors, 401 with the first failed check's message, 200 exactly when the fields are present, non-blank and NUL-free, the credentials match and the user is active and verified, with email, name and tokens |
| UserViews.LoginOfActiveUser | app/user/serializers.py:65-89 | an active user logging in with the stored address and the right password, neither holding a NUL, gets 200 with their email, name and tokens when verified, and 401 `Email is not verified.` otherwise |
| UserViews.LoginNeedsVerification | app/user/tests/test_user_api.py:89-107 | an active, unverified user with the right password is refused with `Email is not verified.` and let in once the flag is set |
| UserViews.RegisteredUserAwaitsVerification | app/core/models.py:19-21 | the user a valid registration creates is stored stripped, non-empty and NUL-free, active, non-staff, unverified, with the registered password |

## Left out

- Mail delivery: `Util.send_email` is I/O. The model records the handed-over message in a ghost outbox.
- JWT signing and decoding (HS256, section 3.2 of RFC 7518; the `exp` claim, section 4.1.4 of RFC 7519): the issuer is a parameter `nat -> string`. The decode result is a parameter `Decoded(id) | Expired | Malformed`. `user.tokens()` is an opaque `TokensFor(id)`.
- Password hashing: the salted hasher is a parameter, and the salt is an argument of each operation that hashes.
- E-mail syntax validation: the framework's e-mail validator is a parameter `string -> bool`.
- `authenticate` is modelled as "a row stored under exactly this email whose hash checks". Django's default backend also returns no user for an inactive account, so under it the `Account is disabled` message is unreachable. The model keeps that branch, as the code has it.
- UserViews.VerifyEmail: requires that a decoded id belongs to a row. A missing row and the other errors of the JWT library are uncaught exceptions in the view; the model gives them no response.
- Password reset and logout: no view, serializer or route for them is part of this model.
- Request context: the current site's domain and the reversed verify path are parameters.
- Unicode: `strip` and `lower` are modelled over ASCII whitespace and letters only.
- Auto-increment ids: `nextId` stands for the database sequence, which never reuses a value.
- Update: the code neither normalises a changed email nor resets `is_verified`, and sends no new verification mail. The model follows the code, although the system's specification says the update should do all three.
- Login: the system's specification exempts admins from the verification check, but the code has no such exemption. The model follows the code (UserSerializers.LoginIgnoresStaff).
- Malformed addresses: `create_user` itself accepts them, and only the serializer checks syntax, as in the code. The specification says `create_user` rejects them.
- UserViews.Register: the model uses the corrected unique check (see Findings). As written, the duplicate case ends in an uncaught integrity error, which gets no response from the view.
- UserSerializers.EmailIssues: besides the exact-match check of the code, the unique check also rejects an address whose normalised form is stored (see Findings). `UserSerializers.EmailIssuesAsWritten` is the check as written, and `UserSerializers.CorrectionOnlyAddsIssues` shows the correction only adds rejections.
- UserSerializers.ValidateRegistration: it is `is_valid` with the corrected `EmailIssues`, so it also refuses the normalised duplicates that the code lets through to an integrity error.
- A failing mail backend: `send_email` runs after the row is saved, so a backend error leaves the user stored, sends no mail and answers 500. `Util.Outbox.SendEmail` always succeeds, so the model has no such outcome.
- Concurrency: two registrations of one address can both pass the unique check before either saves, and then the second save hits the unique constraint. The model runs requests one at a time.
- Surrogate characters: the framework's char fields also refuse lone surrogates. Dafny strings hold Unicode scalar values only, so that rule cannot fire in the model.
- Saves: each `save` is one whole-row table step; saving only some columns is not distinguished.
- Length limits of the database columns are enforced at the serializer only; the table itself accepts any string.

## Findings

| source | as written | input that shows it | evidently intended | confidence | as-written member | corrected member |
|---|---|---|---|---|---|---|
| app/user/serializers.py:9-22 | the unique validator on `email` compares the stripped, not normalised, address with the stored ones; `create_user` then stores the normalised address | registering `ann@Example.com` while `ann@example.com` is stored: validation passes, the save violates the unique constraint | the unique check compares the address `create_user` will store, so a duplicate is answered with 400 | not executed; holds on a database whose exact match is case-sensitive | UserSerializers.UniqueCheckAsWrittenAdmitsDuplicate | UserSerializers.EmailIssues |
