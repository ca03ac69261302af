# UserFeedbackWebAPI — a verified model of its services

UserFeedbackWebAPI is an ASP.NET Core web API with two parts. The first is an
account service. It registers users, confirms their e-mail addresses with
expiring tokens and resends those tokens. It also logs users in with an access
token and a 7-day refresh token, and rotates that refresh token on every use.
The second part stores user feedback. Feedback can be submitted, read by id,
deleted, and listed through optional rating and e-mail filters with paging.

This project models both parts in Dafny.

- `Common`: shared values. It holds `Option`, `Guid`, C# `int` as `Int32` with
  unchecked wrap-around `Wrap32`, and time in whole seconds.
- `Text`: the string operations applied to addresses. These are `String.Trim`
  over .NET whitespace, `String.ToLower`, ordinal `String.Contains` and
  `Uri.UnescapeDataString`.
- `Accounts`: the account record and the store invariant. For each of the five
  operations, a pure function gives the new store, the mail attempted and the
  result. Each of these functions states every result case as an
  if-and-only-if, the store left behind, and that the invariant is preserved.
- `AuthService`: the class `AuthenticationService`. It holds the store as a
  mutable map plus the list of mails it has attempted. Its five methods update
  both in place, and each is proved against the matching `Accounts` function.
- `AccountProperties`: properties of sequences of operations. Examples: a
  second registration of a case or whitespace variant is refused, a fresh user
  cannot log in, a confirmation token has a 24-hour window and works once,
  resending a token replaces the old one, refresh tokens last 7 days and
  rotation kills the previous token, and a confirmed account stays confirmed.
- `Feedback`: the feedback record and the shared listing query. The query is
  two optional `Where` filters, then LINQ `Skip`/`Take` paging, then the page
  count. Lemmas prove that pages 1..TotalPages concatenate to the whole
  listing, that a page is non-empty exactly when its number is at most the page
  count, and that deleting an id removes exactly one record.
- `Data`, `FeedBackService` and `FeedBackController`: the `Feedbacks` table as
  a class with a mutable sequence of rows. On it run the service methods and
  the controller actions, with the HTTP results they return.

Collaborators the model cannot see are parameters:

- the clock (`now`);
- fresh Guids and random tokens;
- the password hasher, given its salt;
- `EmailAddressAttribute.IsValid`;
- whether the SMTP send succeeded (`delivered`);
- ASP.NET's `ModelState.IsValid`.

Login and RefreshToken look a user up by `email.ToLower()` without trimming.
Register, ConfirmEmail and ResendConfirmation trim first. The model keeps this
difference (`LoginKey` versus `Normalize`). `AccountProperties.PaddedAddressNeverLogsIn`
proves what follows from it: Login and RefreshToken called with an address that
starts with whitespace match no stored record, return null and change nothing.
The same account still logs in when the address is given trimmed. Whether a padded
address is accepted at registration at all is up to `EmailAddressAttribute.IsValid`,
which the model leaves as a parameter.

The registration mail is sent after `SaveChangesAsync`, so a send that throws
leaves the new user stored. The model has a separate result for that case
(`RegisterMailFailed`, likewise `ResendMailFailed`). It returns the stored state
together with the attempted mail.

## Model

| member | source | states |
|---|---|---|
| Accounts.Register | UserFeedbackWebAPI/Services/AuthenticationService.cs:113-145 | An invalid address gives "Invalid email format." and changes nothing. An address whose trimmed, lower-cased key is already stored gives "User already exists." and changes nothing. Otherwise exactly one record is added under that key: unconfirmed, role defaulting to "User" when empty, hashed password, token expiring 24 hours after `now`, no refresh token. Every other record is unchanged, and a confirmation mail with the token goes to the key. The store invariant is preserved. |
| Accounts.Login | UserFeedbackWebAPI/Services/AuthenticationService.cs:39-69 | Returns null exactly when there is no record under the lower-cased address, the record is unconfirmed, or password verification is not `Success` (a rehash-needed result counts as failure). On success only that record changes: its refresh token becomes the new one, expiring 7 days after `now`. The response carries that token and an access token for the record. The invariant is preserved. |
| Accounts.RefreshToken | UserFeedbackWebAPI/Services/AuthenticationService.cs:71-91 | Returns null exactly when there is no record, the presented token is not the stored one, or the stored expiry lies strictly before `now`. On success the token is rotated to a new one with a fresh 7-day expiry, and nothing else changes. The invariant is preserved. |
| Accounts.ConfirmEmail | UserFeedbackWebAPI/Services/AuthenticationService.cs:147-163 | The address is unescaped, trimmed and lower-cased. "Invalid token or email." is returned exactly when there is no record or the token differs. "Token has expired." is returned exactly when the token matches but its expiry is before `now`. Otherwise the record becomes confirmed with token and expiry cleared. Only success changes the store. |
| Accounts.ResendConfirmation | UserFeedbackWebAPI/Services/AuthenticationService.cs:165-191 | "Not found" is returned exactly when no record has the normalized key. "Already confirmed" is returned exactly when that record is confirmed. Neither changes anything or sends mail. Otherwise only the token and a 24-hour expiry are replaced, and the resend mail goes to the stored address. |
| Accounts.FindMatchesQuery | UserFeedbackWebAPI/Services/AuthenticationService.cs:119-120 | Under the invariant, the source's query `u.Email.ToLower() == key` matches at most one record. So `AnyAsync` and `SingleOrDefaultAsync` never throw, and both agree with the keyed lookup. |
| Accounts.NormalizeIdempotent | UserFeedbackWebAPI/Services/AuthenticationService.cs:119 | A trimmed, lower-cased address is unchanged by trimming and lower-casing again, so the stored address is its own key. |
| AuthService.AuthenticationService.constructor | UserFeedbackWebAPI/Services/AuthenticationService.cs:32-37 | The service wraps an existing `Users` table that satisfies the invariant, and no mail has been sent. |
| AuthService.AuthenticationService.RegisterAsync | UserFeedbackWebAPI/Services/AuthenticationService.cs:113-145 | Updating the store in place yields exactly the store, the result and the attempted mail of `Accounts.Register`. The invariant is kept. |
| AuthService.AuthenticationService.LoginAsync | UserFeedbackWebAPI/Services/AuthenticationService.cs:39-69 | Updating the record in place yields exactly the store and the response of `Accounts.Login`. No mail is sent and the invariant is kept. |
| AuthService.AuthenticationService.RefreshTokenAsync | UserFeedbackWebAPI/Services/AuthenticationService.cs:71-91 | The in-place rotation yields exactly `Accounts.RefreshToken`'s store and response. The invariant is kept. |
| AuthService.AuthenticationService.ConfirmEmailAsync | UserFeedbackWebAPI/Services/AuthenticationService.cs:147-163 | The in-place update yields exactly `Accounts.ConfirmEmail`'s store and result. No mail is sent. |
| AuthService.AuthenticationService.ResendConfirmationEmailAsync | UserFeedbackWebAPI/Services/AuthenticationService.cs:165-191 | The in-place update yields exactly `Accounts.ResendConfirmation`'s store, result and mail, and the mail is appended to the outbox. |
| AccountProperties.CaseVariantsNormalizeAlike | UserFeedbackWebAPI/Services/AuthenticationService.cs:119 | Addresses that differ only in letter case get the same normalized key. |
| AccountProperties.SecondRegistrationConflicts | UserFeedbackWebAPI/Services/AuthenticationService.cs:119-123 | After a successful registration, registering any valid address with the same normalized key is refused as "User already exists." and changes nothing. |
| AccountProperties.NewUserCannotLogIn | UserFeedbackWebAPI/Services/AuthenticationService.cs:45-46 | A freshly registered user cannot log in, even with the right password, until the address is confirmed. |
| AccountProperties.PaddedAddressNeverLogsIn | UserFeedbackWebAPI/Services/AuthenticationService.cs:41 | Login and refresh do not trim. An address that starts with whitespace matches no stored record, so both return null and change nothing. |
| AccountProperties.StoredKeyHasNoLeadingSpace | UserFeedbackWebAPI/Services/AuthenticationService.cs:119 | A normalized, non-empty address does not start with whitespace. |
| AccountProperties.LinkAddressFindsRecord | UserFeedbackWebAPI/Services/AuthenticationService.cs:138 | The address a confirmation link carries, unescaped and normalized again, is the stored key when it has no `%`. |
| AccountProperties.ConfirmationWindow | UserFeedbackWebAPI/Services/AuthenticationService.cs:125 | The token issued at registration confirms the address at any time up to and including 24 hours later, and is reported expired after that. |
| AccountProperties.ConfirmTwiceFails | UserFeedbackWebAPI/Services/AuthenticationService.cs:157-159 | Confirming again with the same token after a success gives "Invalid token or email." and changes nothing. |
| AccountProperties.ResendReplacesToken | UserFeedbackWebAPI/Services/AuthenticationService.cs:177-179 | After a resend, the old token no longer confirms and the new one does within 24 hours. |
| AccountProperties.LoginThenRefresh | UserFeedbackWebAPI/Services/AuthenticationService.cs:56-58 | The refresh token a login issues is accepted exactly until 7 days later. |
| AccountProperties.RotationInvalidatesPrevious | UserFeedbackWebAPI/Services/AuthenticationService.cs:80-83 | After a refresh, a presented token is accepted exactly when it is the new one and within its 7 days. The presented old token is dead. |
| AccountProperties.RegisterKeepsConfirmed | UserFeedbackWebAPI/Services/AuthenticationService.cs:113-145 | Registration removes no record and un-confirms none. |
| AccountProperties.LoginKeepsConfirmed | UserFeedbackWebAPI/Services/AuthenticationService.cs:39-69 | Login removes no record and un-confirms none. |
| AccountProperties.RefreshKeepsConfirmed | UserFeedbackWebAPI/Services/AuthenticationService.cs:71-91 | Refresh removes no record and un-confirms none. |
| AccountProperties.ConfirmKeepsConfirmed | UserFeedbackWebAPI/Services/AuthenticationService.cs:147-163 | Confirmation removes no record and un-confirms none. |
| AccountProperties.ResendKeepsConfirmed | UserFeedbackWebAPI/Services/AuthenticationService.cs:165-191 | Resend removes no record and un-confirms none. |
| Text.ToLowerSpec | UserFeedbackWebAPI/Services/AuthenticationService.cs:41 | The result has the same length and no capital letter. Each capital becomes its small letter, every other character stays as it was, and whitespace stays at the same positions. |
| Text.ToLowerIdempotent | UserFeedbackWebAPI/Services/AuthenticationService.cs:41 | Lower-casing twice is lower-casing once, so a stored lower-case address is its own login key. |
| Text.TrimSpec | UserFeedbackWebAPI/Services/AuthenticationService.cs:119 | Trimming returns a contiguous part of the address and removes only whitespace. It leaves no whitespace at either end. |
| Text.TrimIdempotent | UserFeedbackWebAPI/Services/AuthenticationService.cs:167 | Trimming twice is trimming once. |
| Text.TrimToLowerCommute | UserFeedbackWebAPI/Services/AuthenticationService.cs:149 | Trimming and lower-casing commute. |
| Text.Contains | UserFeedbackWebAPI/Services/FeedBackService.cs:52 | `Contains` holds exactly when the fragment occurs in the address at some position. |
| Text.UnescapeWithoutPercent | UserFeedbackWebAPI/Services/AuthenticationService.cs:149 | Unescaping leaves text without `%` unchanged. |
| Feedback.FindById | UserFeedbackWebAPI/Services/FeedBackService.cs:34 | `Find(id)` returns a stored record with that id, and null exactly when no stored record has it. |
| Feedback.Where | UserFeedbackWebAPI/Services/FeedBackService.cs:46-53 | A record is in the result of `Where` exactly when it is in the input and passes the filter, and the result is never longer than the input. |
| Feedback.WhereCount | UserFeedbackWebAPI/Services/FeedBackService.cs:46-53 | `Where` keeps each record that passes the filter as often as it occurs in the input, and drops every record that does not pass. |
| Feedback.WhereAppend | UserFeedbackWebAPI/Services/FeedBackService.cs:48 | Filtering distributes over concatenation, so the kept rows stay in store order. |
| Feedback.WhereKeepsUniqueIds | UserFeedbackWebAPI/Services/FeedBackService.cs:48 | Filtering a table with unique ids gives unique ids. |
| Feedback.UniqueIdsSingle | UserFeedbackWebAPI/Services/FeedBackService.cs:34 | With unique ids, two stored records with the same id are the same record, which occurs once. |
| Feedback.RemoveExactlyOne | UserFeedbackWebAPI/Services/FeedBackService.cs:39 | Removing a present id takes out exactly the one record `Find` returns, so the table shrinks by one, and the ids stay unique. |
| Feedback.RemoveKeepsOrder | UserFeedbackWebAPI/Services/FeedBackService.cs:39 | Removing the record at index i leaves exactly the records before it followed by the records after it, in their order. |
| Feedback.AppendFreshKeepsUniqueIds | UserFeedbackWebAPI/Services/FeedBackService.cs:26-27 | Adding a record with an absent id keeps the ids unique. |
| Feedback.Filtered | UserFeedbackWebAPI/Services/FeedBackService.cs:45-53 | The filtered query is exactly the stored records that have the given rating (when one is given) and contain the e-mail fragment (when it is non-empty), with their multiplicities. |
| Feedback.FilteredAppend | UserFeedbackWebAPI/Controllers/FeedBackController.cs:28-36 | The filtered query keeps store order. |
| Feedback.EmptyEmailFilterKeepsAll | UserFeedbackWebAPI/Services/FeedBackService.cs:50 | Every address contains "", so skipping the filter for an empty fragment loses nothing. |
| Feedback.Offset | UserFeedbackWebAPI/Services/FeedBackService.cs:55 | The offset of the corrected paging `Page`, computed without the 32-bit wrap-around of the code (see Findings). For a non-negative page size, the count of records before the page is non-negative from page 1 on, and zero or less up to page 1. |
| Feedback.Page | UserFeedbackWebAPI/Services/FeedBackService.cs:54-57 | A page size of zero or less gives no records. Otherwise a page has at most `pageSize` records, all taken from the listing. For positive arguments it is the slice starting at `(page - 1) * pageSize`. A page number of zero or less gives the first page, as LINQ's `Skip` ignores negative counts. |
| Feedback.TotalPages | UserFeedbackWebAPI/Controllers/FeedBackController.cs:38 | For a non-zero page size this is the ceiling of `totalItems / pageSize`, for negative sizes too. A positive size gives 0 pages exactly when there are no items. A zero size gives no value. |
| Feedback.PageNonEmptyIffWithinTotal | UserFeedbackWebAPI/Controllers/FeedBackController.cs:37-42 | For positive arguments a page has records exactly when its number is at most the reported page count. |
| Feedback.FirstPagesArePrefix | UserFeedbackWebAPI/Controllers/FeedBackController.cs:39-42 | Pages 1 to n, concatenated, are exactly the records that come before page n + 1. |
| Feedback.PageFollowsPrefix | UserFeedbackWebAPI/Controllers/FeedBackController.cs:39-42 | Page n picks up exactly where the records before it end, and stops where page n + 1 begins. |
| Feedback.PagesCoverAll | UserFeedbackWebAPI/Controllers/FeedBackController.cs:37-42 | Pages 1 to TotalPages, concatenated, are the whole filtered listing, with nothing lost or repeated. |
| Feedback.PageAsWritten | UserFeedbackWebAPI/Services/FeedBackService.cs:54-57 | The paging as the code computes it, with the offset wrapped to 32 bits. A page size of zero or less gives no records. Otherwise there are at most `pageSize` records, all taken from the listing. |
| Feedback.PageAsWrittenAgrees | UserFeedbackWebAPI/Services/FeedBackService.cs:55 | Where `(page - 1) * pageSize` fits in an `int`, the wrapping arithmetic of the code gives the same page as `Page`. |
| Feedback.PageOverflowReturnsEarlierRecords | UserFeedbackWebAPI/Services/FeedBackService.cs:55 | Page 429496731 of size 10 is past the last page of any listing of at least 5 records, and `Page` is empty. The code as written returns records 5 to 14. |
| Data.AppDbContext.constructor | UserFeedbackWebAPI/Data/AppDbContext.cs:9-14 | The context wraps an existing table whose ids are unique. |
| FeedBackService.CreateAsync | UserFeedbackWebAPI/Services/FeedBackService.cs:24-30 | The record gets the fresh id and is appended once. Nothing else changes, ids stay unique, and the stored record is returned. |
| FeedBackService.DeleteAsync | UserFeedbackWebAPI/Services/FeedBackService.cs:32-41 | Returns false and changes nothing exactly when no record has the id. Otherwise returns true and removes exactly that record, keeping the others in order. |
| FeedBackService.GetAllAsync | UserFeedbackWebAPI/Services/FeedBackService.cs:43-58 | Returns the requested page of the filtered records, computed as the code does with the 32-bit wrapped offset. Where `(page - 1) * pageSize` fits in an `int` it is the page `Page` gives, so the paging lemmas apply. Every returned record is stored and passes the filters, and there are never more than `pageSize` of them. |
| FeedBackService.GetByIdAsync | UserFeedbackWebAPI/Services/FeedBackService.cs:60-68 | Throws `KeyNotFoundException` exactly when no stored record has the id. Otherwise returns a stored record with that id. |
| FeedBackController.GetAllFeedback | UserFeedbackWebAPI/Controllers/FeedBackController.cs:21-51 | Always Ok. The body gives the count of filtered records, the ceiling page count, the echoed page number and size (defaults 1 and 10), and that page of the filtered records with the 32-bit wrapped offset. Where `(pageNumber - 1) * pageSize` fits in an `int` this is the page `Page` gives. Every returned record is stored and passes the filters. |
| FeedBackController.GetFeedbackById | UserFeedbackWebAPI/Controllers/FeedBackController.cs:55-63 | NotFound exactly when no stored record has the id. Otherwise Ok with a stored record with that id. |
| FeedBackController.DeleteFeedback | UserFeedbackWebAPI/Controllers/FeedBackController.cs:67-77 | NotFound, changing nothing, exactly when no record has the id. Otherwise NoContent, with exactly that record removed and ids still unique. |
| FeedBackController.SubmitFeedBack | UserFeedbackWebAPI/Controllers/FeedBackController.cs:81-96 | A null body gives BadRequest("Feedback cannot be null.") and an invalid model state gives BadRequest(ModelState); neither changes anything. Otherwise the record gets the fresh id, is appended once, and is returned as CreatedAtAction. |

## Left out

- `Text.ToLower` maps only the ASCII letters. `String.ToLower` uses the current culture and lower-cases every Unicode letter; culture data cannot be modelled here.
- `Text.Unescape` decodes only `%XX` escapes below 0x80. `Uri.UnescapeDataString` also decodes multi-byte UTF-8 sequences, and those need a UTF-8 decoder that is not modelled.
- The confirmation link puts the address in the query string without URL-encoding it. `AccountProperties.LinkAddressFindsRecord` therefore covers only addresses without `%`. A stored address containing `%XX` is not found again by ConfirmEmail.
- JWT signing (`GenerateJwtToken`, AuthenticationService.cs:93-110) is reduced to the claims it signs and their 15-minute expiry. The key, HMAC and serialization are library code.
- `PasswordHasher` hashing and verification, and `EmailAddressAttribute.IsValid`, are uninterpreted functions. The salt the hasher draws is a parameter.
- SMTP delivery (EmailService.cs) is reduced to the attempted mail (recipient, subject, token) and a `delivered` flag. The HTML body is not modelled.
- The clock, `Guid.NewGuid()` and `RandomNumberGenerator` are parameters: one clock reading per operation, plus caller-supplied tokens and ids. Fresh feedback ids are a precondition (`FindById(...).None?`), because Guid collisions are not modelled.
- Each operation is modelled as atomic. Concurrent requests, async interleaving, transactions and `DbUpdateException`s (database errors, including duplicate keys under a race) are not modelled. `SaveChanges` is taken to succeed, so `DeleteAsync`'s `SaveChangesAsync() > 0` is true after a removal.
- FeedBackService.GetAllAsync, FeedBackController.GetAllFeedback: these compute the page as the code does, with the wrapped offset. The paging properties (`PagesCoverAll`, `PageNonEmptyIffWithinTotal`) are proved for the corrected `Page`, and so they carry over to the operations only where `(page - 1) * pageSize` fits in an `int`.
- The table's enumeration order is taken as the store's sequence. The queries have no `OrderBy`, so a real database may page in another order.
- Database providers may reject negative `Skip`/`Take` counts. The model follows LINQ-to-objects, where such counts skip or take nothing.
- `Feedback.TotalPages` gives no value for a zero page size. The source casts a floating-point infinity or NaN to `int`, and the result of that cast depends on the platform.
- `FeedBack.Id` is declared `int` in Models/FeedBack.cs, while the services assign a `Guid`. The model uses `Guid`, as the services and controller do.
- `AppUser` in Models/AppUser.cs lists only id, e-mail, hash and role, and `AppDbContext` declares only `Feedbacks`. The token fields and the `Users` table the service uses come from a migration, and the model takes them from the service code.
- Null string arguments are not modelled, because the signatures declare non-nullable `string`. A null feedback body is modelled, because the controller tests for it.
- `ModelState.IsValid` (data-annotation validation) is a boolean parameter of `SubmitFeedBack`.
- The `[Authorize]` attribute on delete and submit is a request filter outside the action bodies, and is not modelled.
- `Console.WriteLine` logging in `LoginAsync` has no effect on state and is not modelled.
- AuthController (fixed admin credentials), Program.cs (hosting and configuration) and the EF migrations are not part of this model.

## Findings

| source | as written | input that shows it | evidently intended | confidence | as-written member | corrected member |
|---|---|---|---|---|---|---|
| UserFeedbackWebAPI/Services/FeedBackService.cs:55 and UserFeedbackWebAPI/Controllers/FeedBackController.cs:40 | `(page - 1) * pageSize` is unchecked 32-bit `int` arithmetic and wraps around. | `page = 429496731`, `pageSize = 10` over a listing of at least 5 records: the product wraps to 4, so the request returns records 5 to 14, although the page lies far beyond the reported page count. | A page past the last page is empty: the offset is computed without overflow, or out-of-range page numbers are rejected. | not executed | Feedback.PageAsWritten, Feedback.PageOverflowReturnsEarlierRecords, FeedBackService.GetAllAsync, FeedBackController.GetAllFeedback | Feedback.Page, Feedback.PagesCoverAll |
