# Store identity and business-rule model

A Dafny model of a Next.js storefront (Arabic and English, prices in Iraqi
dinars) and of the proofs about it.

The main part is the identity-verification subsystem:
- the fixed-window rate limiters;
- the three token tables:
  - login codes, keyed by e-mail;
  - second-factor codes, keyed by user id;
  - e-mail-verification codes, keyed by user id;
- the routes that issue, check and consume those tokens (`send-otp`,
  `verify-otp`, `2fa/generate`, `2fa/verify`, `2fa/toggle`,
  `send-verification`, `verify-email`);
- the credentials sign-in `authorize`;
- the session callbacks that gate `/admin`.

The database is one object (`Store.Db`) holding the user table and the three
token tables. Each route is a method over that object, and its contract ties
the new state to a pure step function over a `Store.Snapshot`. The lemmas
about whole request sequences are stated over those step functions:
- codes issued one per subject;
- checks run in order;
- attempt budgets;
- a code working once.

Beside that core the model covers the shop's small business rules:
- cart merging;
- the active-discount price;
- order placement (stock check, total, price snapshot, stock decrement) and
  the role gates on admin mutations;
- the home page and categories page listings;
- the sales report;
- the order-status timeline;
- the mail-check script's `.env` reader;
- the variant editor;
- the discount and profile forms and actions;
- the category display table;
- the storefront search.

Where the source mutates state (the rate-limit maps, the database, the
environment, the variant editor, the discount and address tables), the model
is a class with `modifies` clauses. Pure code is modelled as functions and
lemmas.

Conventions:
- Times are integers in milliseconds.
- Cart and order prices are whole dinars. The discount price is an exact
  `real`.
- Random codes, the mailer's answer, bcrypt's compare, `JSON.parse` and
  `Number(...)` are parameters.
- Objects used as dictionaries are `Records.Entries`, in insertion order.
  The two count tables of the home and categories pages are modelled twice:
  as written on an object made by `{}` (where names such as `constructor`
  and `__proto__` meet `Object.prototype`), and as intended. A lemma ties
  the two together for names that are not prototype members.

## Model

A route's step function (`Post`, `Get`, `Authorize`, `Admit`, `Redeem`),
the timeline's `Render` and the reduces the pages fold with (`CountOf`,
`MapOf`, `StatsOf`) have no rows of their own. They are stated through the
row of the method tied to them and the rows of the lemmas about them.

| member | source | states |
|---|---|---|
| RateLimit.IpRateLimiter.constructor | lib/rate-limit.ts:2 | The record map starts empty. |
| RateLimit.IpRateLimiter.RateLimit | lib/rate-limit.ts:6-25 | A first call for a key is let through and stores count 1 at `now`. A call more than `windowMs` after the window opened resets to count 1 and is let through. A full window blocks and leaves every record unchanged. Otherwise the count rises by one and `lastRequest` is not refreshed. Other keys are untouched, and the new record agrees with `Step`. |
| RateLimit.CountStaysBounded | lib/rate-limit.ts:8-24 | One call keeps a stored count within `1..max(1, limit)`. |
| RateLimit.CountBoundedOverRun | lib/rate-limit.ts:8-24 | Any sequence of calls keeps the count within `max(1, limit)`. |
| RateLimit.WindowBudget | lib/rate-limit.ts:19-24 | While every call stays within the window, exactly `max(0, limit - count)` calls are let through, however they are spaced. |
| RateLimit.FreshKeyBudget | lib/rate-limit.ts:8-24 | From an unseen key, the calls within one window let through at most `max(1, limit)` requests. |
| RateLimit.DefaultBudget | lib/rate-limit.ts:4-24 | With the default 20 calls per minute, a key never seen before gets `min(1 + n, 20)` of `1 + n` calls within a minute through. |
| RateLimit.ResetAfterWindow | lib/rate-limit.ts:13-17 | Once the window has passed, the next call is allowed and restarts the count at 1. |
| RouteLimiter.Limiter.constructor | app/api/auth/send-otp/route.ts:5 | The counter map starts empty, with the route's boundary rule. |
| RouteLimiter.Limiter.Check | app/api/auth/send-otp/route.ts:8-23 | A missing or closed window opens a new one with count 1 and closing time `now + windowMs`, and allows. A full open window denies and changes nothing. Otherwise the count rises by one and the call is allowed. Other keys keep their windows. |
| RouteLimiter.CountStaysBounded | app/api/auth/2fa/generate/route.ts:9-24 | A call keeps the stored count within `1..max(1, max)`. |
| RouteLimiter.OpenWindowAnswers | app/api/auth/send-otp/route.ts:12-17 | In an open window the first `max - count` calls are allowed and every later one is denied. The closing time never moves. |
| RouteLimiter.FreshWindowBudget | app/api/auth/send-verification/route.ts:8-23 | A window admits at most `max(1, max)` requests. |
| RouteLimiter.ResetWhenClosed | app/api/auth/send-otp/route.ts:20-22 | After the window closes, the next call is allowed and opens a new window of count 1. |
| RouteLimiter.BoundaryAtResetTime | app/api/auth/2fa/verify/route.ts:7-22 | At the closing instant a full window still denies in the 2fa routes but has already reset in send-otp and send-verification. |
| RouteLimiter.ThreePerSecond | app/api/auth/send-verification/route.ts:8-23 | With a budget of 3 per window, three calls pass, the fourth is denied, and a call after the window elapses passes again. |
| Tokens.FirstMatch | app/api/auth/2fa/verify/route.ts:44-53 | The result is the least id in range whose row matches the filter. |
| Tokens.FindFirst | auth.ts:37-43 | `findFirst` without ordering finds a matching row with no matching row of a smaller id, or reports that no row matches. |
| Tokens.LastMatch | app/api/auth/verify-otp/route.ts:18-26 | The result is the greatest id below the bound whose row matches. |
| Tokens.FindNewest | app/api/auth/verify-otp/route.ts:18-26 | `findFirst` ordered by newest finds the matching row with no later matching row, or reports none. |
| Tokens.NewestIsFirst | app/api/auth/verify-otp/route.ts:18-26 | With one row per subject, the oldest and the newest match coincide for a query naming the subject. |
| Tokens.UpdateKeepsNewest | app/api/auth/verify-otp/route.ts:56-59 | Rewriting the newest match with a row that still matches keeps it the newest. |
| Tokens.UpdateKeepsFirst | app/api/auth/verify-email/route.ts:135-138 | Rewriting the oldest match with a row that still matches keeps it the oldest. |
| Tokens.DeleteWhere | app/api/auth/send-otp/route.ts:49-51 | `deleteMany` removes exactly the matching rows and keeps every other row. |
| Tokens.DeleteOthers | app/api/auth/2fa/verify/route.ts:99-104 | `deleteMany` of a subject's other rows keeps the kept row and every other subject's rows. |
| Tokens.IssueLeavesOne | app/api/auth/send-otp/route.ts:49-60 | After delete-then-create the subject has exactly one row, the new one, and other subjects' rows are untouched. |
| Tokens.IssueKeepsInvariant | app/api/auth/send-otp/route.ts:49-60 | Issuing preserves the one-row-per-subject invariant and the id bound. |
| Tokens.FindOwnRow | app/api/auth/2fa/verify/route.ts:44-53 | With one row per subject, a subject-naming lookup finds that row exactly when it matches. |
| Tokens.FindNoRow | app/api/auth/verify-otp/route.ts:18-33 | A lookup naming a subject without rows finds nothing. |
| Tokens.DeleteKeepsInvariant | app/api/auth/2fa/toggle/route.ts:32-36 | Deleting rows never breaks the one-row-per-subject invariant. |
| Store.FindUserFrom | auth.ts:8-16 | The first user from a position on that has the key, or none. |
| Store.FindUser | auth.ts:8-16 | `findUnique` finds a user with the key exactly when one exists. |
| Store.FindUserUnique | auth.ts:8-16 | On a table with unique ids and e-mails, the user found is the only one with that key. |
| Store.WithTable | app/api/auth/send-otp/route.ts:49-60 | Replacing one token table leaves the users, the other tables and the id counter as they were. |
| Store.IssueInSpec | app/api/auth/send-otp/route.ts:49-60 | Issuing keeps the database valid and single-active, leaves the subject exactly the new row with its code and expiry, and leaves the users and other tables untouched. |
| Store.DeleteInSpec | app/api/auth/2fa/toggle/route.ts:32-36 | `deleteMany` keeps the database valid and single-active. |
| Store.RemoveInSpec | app/api/auth/verify-otp/route.ts:37 | Deleting one row keeps the database valid and single-active. |
| Store.UpdateInSpec | app/api/auth/verify-otp/route.ts:56-59 | Updating a row without changing its subject keeps the database valid and single-active. |
| Store.Db.constructor | auth.ts:10 | The database starts with no users and no tokens. |
| Store.Db.FindUserRow | auth.ts:10 | The lookup reads the user table and returns `FindUser`. |
| Store.Db.FindFirstRow | auth.ts:37-43 | The loop over ids returns the oldest matching row. |
| Store.Db.FindNewestRow | app/api/auth/verify-otp/route.ts:18-26 | The descending loop returns the newest matching row. |
| Store.Db.DeleteMany | app/api/auth/send-otp/route.ts:49-51 | The new state is the old one with the matching rows of that table removed. |
| Store.Db.DeleteOthersOf | app/api/auth/2fa/verify/route.ts:99-104 | The new state is the old one without the subject's other rows. |
| Store.Db.Create | app/api/auth/send-otp/route.ts:54-60 | Adds an unverified row with no attempts under the next id, and advances the id. |
| Store.Db.Delete | app/api/auth/verify-otp/route.ts:67 | Removes exactly one row. |
| Store.Db.Update | app/api/auth/2fa/verify/route.ts:87-96 | Replaces exactly one existing row. |
| Store.Db.CreateUser | app/api/auth/verify-otp/route.ts:88-101 | Appends a user and changes nothing else. |
| Store.Db.UpdateUser | app/api/auth/verify-email/route.ts:56-59 | Replaces one user and changes nothing else. |
| SendOtp.IsValidEmailMatchesPattern | app/api/auth/send-otp/route.ts:29-30 | The route's e-mail check accepts exactly the strings `^[^\s@]+@[^\s@]+\.[^\s@]+$` matches. |
| SendOtp.HandlePost | app/api/auth/send-otp/route.ts:25-84 | The handler's answer and new database and counters are those of the step function `Post`. |
| SendOtp.InvalidEmailTouchesNothing | app/api/auth/send-otp/route.ts:29-34 | A malformed address is answered 400 before the counter is charged, so nothing changes. |
| SendOtp.RefusalKeepsTables | app/api/auth/send-otp/route.ts:37-43 | A refused request changes no table, and a budget refusal changes no counter either. |
| SendOtp.IssueLeavesOneCode | app/api/auth/send-otp/route.ts:45-69 | After an accepted request the lower-cased address has exactly one login code: four digits, expiring five minutes later. The row stays when mailing fails. |
| SendOtp.BudgetIgnoresCase | app/api/auth/send-otp/route.ts:37 | Two spellings differing only in letter case share one counter and get the same answer. |
| SendOtp.EleventhRequestRefused | app/api/auth/send-otp/route.ts:12-17 | In one open window the eleventh request for an address is refused and changes nothing. |
| VerifyOtp.NameOf | app/api/auth/verify-otp/route.ts:92 | A new user's name is the text before the first `@`, or the whole address. |
| VerifyOtp.NameOfIsFirstPiece | app/api/auth/verify-otp/route.ts:92 | That name is the first piece of `split('@')`. |
| VerifyOtp.HandlePost | app/api/auth/verify-otp/route.ts:6-197 | The handler's answer and new database are those of the step function `Post`. |
| VerifyOtp.MissingFieldsChangeNothing | app/api/auth/verify-otp/route.ts:10-15 | Without an address or a code the answer is 400 and nothing changes. |
| VerifyOtp.NoCodeIffNoPendingRow | app/api/auth/verify-otp/route.ts:18-33 | The answer is 404 exactly when the lower-cased address has no unverified code, and then nothing changes. |
| VerifyOtp.ChecksInOrder | app/api/auth/verify-otp/route.ts:36-64 | The checks run expiry, then attempts, then the code. Expiry and the attempt cap delete the row; a wrong code only adds an attempt to it. |
| VerifyOtp.WrongCodeKeepsRow | app/api/auth/verify-otp/route.ts:54-64 | A wrong code keeps the row, still the newest unverified one, with one more attempt, and changes nothing else. |
| VerifyOtp.WrongCodesThenLocked | app/api/auth/verify-otp/route.ts:45-64 | From `a` attempts, the `5 - a` wrong codes before expiry are each answered 400. The next submission fails with "too many attempts" whatever it carries. |
| VerifyOtp.FiveWrongCodesLockOut | app/api/auth/verify-otp/route.ts:45-51 | After five wrong codes the sixth submission fails and deletes the code, even with the right code. |
| VerifyOtp.AcceptedCodeIsConsumed | app/api/auth/verify-otp/route.ts:67 | An accepted code's row is deleted. |
| VerifyOtp.AdmitBranches | app/api/auth/verify-otp/route.ts:67-187 | The branch after acceptance is decided by the user, each way an if-and-only-if: e-mail verification exactly when the address is unknown or its user unverified; second factor exactly when the user is verified with 2FA on; signed in exactly when verified without 2FA. An unknown address gets a new unverified user. The verification branch issues exactly one fresh 15-minute e-mail token and no 2FA token; the second-factor branch exactly one fresh 10-minute 2FA token; signing in changes nothing. Validity and single-activity are kept. |
| VerifyOtp.PostKeepsInvariants | app/api/auth/verify-otp/route.ts:6-197 | Every request keeps the database valid and every token table single-active. |
| TwoFactorGenerate.HandlePost | app/api/auth/2fa/generate/route.ts:26-106 | The handler's answer, database and counters are those of the step function `Post`. |
| TwoFactorGenerate.ChecksInOrder | app/api/auth/2fa/generate/route.ts:30-68 | The checks run id (400), budget (429), user (404), flag (400), each before the next. Only a request passing all four changes a table, and each request with an id not refused by the budget charges it. |
| TwoFactorGenerate.IssueLeavesOneCode | app/api/auth/2fa/generate/route.ts:66-91 | After an accepted request the user has exactly one unverified six-digit code with no attempts, expiring ten minutes later. The row stays when mailing fails. |
| TwoFactorGenerate.SixthRequestRefused | app/api/auth/2fa/generate/route.ts:9-24 | In one window the sixth request for a user id is refused, whatever happened to the first five. |
| TwoFactorVerify.HandlePost | app/api/auth/2fa/verify/route.ts:24-119 | The handler's answer, database and counters are those of the step function `Post`. |
| TwoFactorVerify.RedeemCode | app/api/auth/2fa/verify/route.ts:44-104 | The lookup and checks after the budget answer and change the tables as the step function `Redeem` says. |
| TwoFactorVerify.ChecksInOrder | app/api/auth/2fa/verify/route.ts:36-62 | Every request with both fields charges the user's budget, the refused ones included, and the answers follow the order of the checks. |
| TwoFactorVerify.FoundRow | app/api/auth/2fa/verify/route.ts:65-104 | An expired or spent row found is deleted and nothing else changes. Otherwise the row is marked verified with one more attempt, the user's other rows are deleted, and other users' rows stay. |
| TwoFactorVerify.ResubmitRefused | app/api/auth/2fa/verify/route.ts:44-49 | Submitting a verified code again is refused like a wrong one. |
| TwoFactorVerify.AttemptsNeverExceeded | app/api/auth/2fa/verify/route.ts:76-84 | Every unverified row keeps `attempts == 0`, so the "attempts exceeded" branch is never taken. |
| TwoFactorVerify.WrongCodesThenRefused | app/api/auth/2fa/verify/route.ts:36-62 | With `count` calls already in an open window, the `5 - count` wrong codes are answered "invalid code" and change no row, and the next call is refused by the budget. |
| TwoFactorVerify.FiveWrongCodesThenBudget | app/api/auth/2fa/verify/route.ts:36-62 | Five wrong codes, then the right one within fifteen minutes: the right code is refused by the budget (429), not by an attempt count. |
| TwoFactorVerify.RightCodeAfterWindow | app/api/auth/2fa/verify/route.ts:7-22 | After the budget window closes, the right code still succeeds if its row has not expired. |
| TwoFactorToggle.HandlePost | app/api/auth/2fa/toggle/route.ts:5-53 | The handler's answer and database are those of the step function `Post`. |
| TwoFactorToggle.ToggleSpec | app/api/auth/2fa/toggle/route.ts:9-44 | A request is carried out exactly when it has a session, an existing user and a boolean. The flag then equals the value sent and is echoed back. Switching off removes the user's 2FA rows, and switching on leaves the table as it was. Otherwise nothing changes (401, 400 or server error). |
| TwoFactorToggle.ToggleIdempotent | app/api/auth/2fa/toggle/route.ts:26-36 | Sending the same value twice is the same as sending it once. |
| TwoFactorToggle.DisabledUserHasNoCodes | app/api/auth/2fa/toggle/route.ts:32-36 | After switching off, the user has no second-factor code to submit. |
| SendVerification.HandlePost | app/api/auth/send-verification/route.ts:25-106 | The handler's answer, database and counters are those of the step function `Post`. |
| SendVerification.ChecksInOrder | app/api/auth/send-verification/route.ts:29-62 | The user checks come before the budget. Only requests for existing unverified users touch the counters, and only those that also pass the budget change a table. |
| SendVerification.IssueLeavesOneCode | app/api/auth/send-verification/route.ts:65-92 | After an accepted request the user has exactly one six-digit e-mail code, expiring fifteen minutes later. The row stays when mailing fails. |
| SendVerification.FourthRequestRefused | app/api/auth/send-verification/route.ts:8-23 | In one open window the fourth request for an address is refused and changes nothing. |
| VerifyEmail.HandleGet | app/api/auth/verify-email/route.ts:4-85 | The handler's answer and database are those of the step function `Get`. |
| VerifyEmail.HandlePost | app/api/auth/verify-email/route.ts:87-157 | The handler's answer and database are those of the step function `PostCode`. |
| VerifyEmail.GetSpec | app/api/auth/verify-email/route.ts:9-67 | The link checks in order: a missing or unknown code gives 400; an expired code, or one whose owner is verified, is deleted with 400; otherwise the owner is verified and the code deleted. The database stays valid and single-active. |
| VerifyEmail.LinkWorksOnce | app/api/auth/verify-email/route.ts:56-67 | Following a link again after it has verified the address finds no code. |
| VerifyEmail.PostSpec | app/api/auth/verify-email/route.ts:91-138 | The typed-code checks in order: both fields are required; the user must hold a row with the code; an expired row is deleted. Otherwise the owner is verified and the row kept, marked verified. |
| VerifyEmail.PostRepeatable | app/api/auth/verify-email/route.ts:99-138 | Repeating the typed code before expiry succeeds again on the same row, and only the verification time moves. |
| Auth.DomainShape | auth.ts:23-27 | A domain the sign-in pattern accepts has no space or `@` and contains an inner dot. |
| Auth.SchemaEmailPassesRouteCheck | auth.ts:23-27 | Every address the sign-in schema accepts also passes the login-code route's check. |
| Auth.GetUser | auth.ts:8-16 | The user whose e-mail equals the input exactly, if any. |
| Auth.AuthorizeCredentials | auth.ts:22-87 | The callback's answer and database are those of `Authorize`. |
| Auth.MalformedDenied | auth.ts:23-27 | A malformed e-mail or a secret under four characters is denied and changes nothing. |
| Auth.ExactEmail | auth.ts:29-30 | A granted user carries the exact address given, with no case folding, and an unknown address is denied. |
| Auth.FirstCheckWins | auth.ts:33-79 | In that order, each iff: password; a verified 2FA code younger than 12 minutes; a verified e-mail code younger than 16 minutes; otherwise denial. A password sign-in or a denial changes nothing, and a code sign-in deletes exactly the row it used. |
| Auth.StaleAndUnverifiedRowsStay | auth.ts:45-57 | An unverified row, or one older than its window, is never deleted, and only token tables change. |
| Auth.CodeWorksOnce | auth.ts:52-54 | Once a code has signed in, the same secret later succeeds only by password. The one exception is an e-mail code behind a consumed 2FA code. |
| AuthConfig.Authorized | auth.config.ts:8-28 | A path outside `/admin` is admitted. An admin path is admitted only for a signed-in SUPER_ADMIN. |
| AuthConfig.AuthorizedIff | auth.config.ts:14-24 | A path is refused exactly when it is an admin path and the caller is not a signed-in SUPER_ADMIN. |
| AuthConfig.PrefixExamples | auth.config.ts:14 | The prefix test also gates `/administrator`, and admits public pages to anyone. |
| AuthConfig.JwtToken.constructor | auth.config.ts:38 | The token starts with the given subject and role. |
| AuthConfig.JwtToken.OnJwt | auth.config.ts:38-44 | The user's role is copied into the token only when a user is present. |
| AuthConfig.SessionUser.constructor | auth.config.ts:29 | The session user starts with the given fields. |
| AuthConfig.Session.constructor | auth.config.ts:29 | The session starts with or without a user. |
| AuthConfig.Session.OnSession | auth.config.ts:29-37 | The subject becomes the user id and the token role the user's role, only when both the subject and the user exist. |
| AuthConfig.SignInThenVisit | auth.config.ts:8-44 | After sign-in and a page load, the admin gate admits the user exactly when their role is SUPER_ADMIN. |
| Cart.Bump | components/cart-provider.tsx:50-54 | Each line with the key gets the added quantity, and every other line stays. |
| Cart.AddItem | components/cart-provider.tsx:44-58 | An existing key bumps its lines; a new key appends the item. |
| Cart.RemoveItem | components/cart-provider.tsx:60-64 | Exactly the lines without the key are kept, in order. |
| Cart.ClearCart | components/cart-provider.tsx:66 | The cart is empty, with total 0. |
| Cart.AddExisting | components/cart-provider.tsx:46-55 | Adding an existing key changes only the quantities of its lines. The length, order and prices stay. |
| Cart.AddNew | components/cart-provider.tsx:56 | Adding a new key appends the line as given. |
| Cart.AddKeepsDistinct | components/cart-provider.tsx:44-58 | Adding keeps the keys distinct. |
| Cart.TotalAppend | components/cart-provider.tsx:68 | The total of two carts joined is the sum of their totals. |
| Cart.BumpTotal | components/cart-provider.tsx:50-54 | Bumping adds the key's price times the added quantity to the total. |
| Cart.KeyPriceOfDistinct | components/cart-provider.tsx:46-55 | With distinct keys, the key's price is that of its one line. |
| Cart.NoOtherLine | components/cart-provider.tsx:44-58 | With distinct keys, no later line shares the first line's key. |
| Cart.AddNewTotal | components/cart-provider.tsx:56 | Adding a new key adds its price times quantity to the total. |
| Cart.AddExistingTotal | components/cart-provider.tsx:46-55 | Adding an existing key adds the quantity at the price already in the cart, not the new item's price. |
| Cart.RemoveTotal | components/cart-provider.tsx:60-68 | The kept and removed lines together carry the whole total, and a cart without the key is left as it is. |
| Cart.RemoveAppend | components/cart-provider.tsx:60-64 | Removing distributes over concatenation, so the order is kept. |
| Cart.RemoveKeepsDistinct | components/cart-provider.tsx:60-64 | Removing keeps the keys distinct and leaves no line with the key. |
| Cart.RemoveSub | components/cart-provider.tsx:60-64 | Removing from a cart with distinct keys keeps them distinct. |
| Price.FindActive | lib/price.ts:10-12 | The first discount whose range contains `now`, both ends included, or none. |
| Price.CalculatePrice | lib/price.ts:8-30 | With no active discount, the price is returned without an original price or a discount. Otherwise the original price is reported beside the discounted price. |
| Price.FirstActiveWins | lib/price.ts:10-29 | The active discount is the first active one in list order, and the price comes from it alone. |
| Price.PercentagePath | lib/price.ts:19-20 | A non-zero percentage decides the price whatever the amount. A percentage within [0, 100] keeps the result within [0, price]. |
| Price.AmountPath | lib/price.ts:21-22 | Without a usable percentage, a non-zero amount is subtracted with zero as the floor, staying within [0, price]. |
| Price.EmptyDiscountStillReported | lib/price.ts:18-29 | An active discount with neither field set leaves the price unchanged but still reports an original price. |
| Price.RangeInclusive | lib/price.ts:11 | A discount is active at its start and at its end. |
| Orders.BuyerOf | app/actions.ts:105-123 | The buyer is the session user, or else the first user with the guest address, created when missing. |
| Orders.FirstBadLine | app/actions.ts:129-133 | The first line whose product is missing or short of stock, or none when every line fits the pre-order stock. |
| Orders.Snapshots | app/actions.ts:125-140 | One stored line per requested line, with the product's current price. |
| Orders.Decrement | app/actions.ts:160-165 | Each line lowers its product's stock by the line's quantity, in order. |
| Orders.DecrementSpec | app/actions.ts:160-165 | Every product loses exactly the quantity the lines request of it, summed over duplicate lines, and nothing else changes. |
| Orders.TotalOfSnapshots | app/actions.ts:125-157 | The order total is the sum of its stored lines. |
| Orders.DuplicateLinesOverdraw | app/actions.ts:129-133 | Two lines for one product that each fit the stock pass together and overdraw it. |
| Orders.RequestedOfDistinct | app/actions.ts:160-165 | Without duplicate products, the requested quantity of a line's product is that line's quantity. |
| Orders.RequestedAbsent | app/actions.ts:160-165 | A product on no line is requested zero. |
| Orders.DistinctLinesKeepStock | app/actions.ts:129-165 | Without duplicate products, a passed check leaves no requested product with negative stock. |
| Orders.StatusGateExamples | app/actions.ts:197-211 | Every role other than none or `USER`, known or not, may set any status. |
| Orders.Variants | app/actions.ts:21-27 | Empty or unparseable variants text stores no variants instead of failing. |
| Orders.Shop.constructor | app/actions.ts:98 | The shop starts with no products, orders or users. |
| Orders.Shop.CheckLines | app/actions.ts:125-140 | The check changes nothing. It yields the total and stored lines, or the error name of the first failing line. |
| Orders.Shop.ApplyDecrement | app/actions.ts:160-165 | The products become `Decrement` of the old ones. |
| Orders.Shop.CreateOrder | app/actions.ts:98-171 | A failed check adds no order and leaves stock unchanged, though a new guest row stays. Otherwise one PENDING_PAYMENT order with the snapshots and total is added, and the stock is decremented. |
| Orders.Shop.CreateProduct | app/actions.ts:9-44 | Only a super admin adds a product. Others are refused and nothing changes. |
| Orders.Shop.UpdateProduct | app/actions.ts:46-83 | A super admin replaces every field of an existing product. A missing product fails, and others are refused. |
| Orders.Shop.DeleteProduct | app/actions.ts:85-96 | A super admin deletes an existing product; otherwise nothing changes. |
| Orders.Shop.UpdateUserRole | app/actions.ts:175-190 | A super admin sets any existing user's role to any string. A missing user fails, others are refused, and products and orders never change. |
| Orders.Shop.UpdateOrderStatus | app/actions.ts:192-216 | Any role but none or `USER` sets an existing order's status to any string. |
| Orders.Shop.CreateAdminUser | app/actions.ts:218-245 | A super admin adds a user with a hashed password. A taken address fails and adds nothing. |
| Categories.LayoutIndex | app/page.tsx:56 | `indexOf` in the layout order: the first position holding the name, or -1 exactly when it is absent. |
| Categories.IndexIn | components/category-grid.tsx:16 | The same `indexOf` on any list. |
| Categories.LayoutCmpAgrees | components/category-grid.tsx:18-28 | The comparator puts `a` no later than `b` exactly when `a`'s rank is at most `b`'s, and it is antisymmetric. |
| Categories.TopCategories | app/page.tsx:72 | The result has `min(6, n)` entries, all taken from the input without repetition. |
| Categories.TopCategoriesOrder | components/category-grid.tsx:23-26 | Layout categories come before all others; layout categories follow the layout order and the rest descending count. No category left out ranks better than one shown. |
| Categories.TopCategoriesKeepCounts | app/page.tsx:58 | With distinct names, the shown entries are map keys with their own counts. |
| Categories.BuildCategoryMap | app/page.tsx:31-34 | The fold loop builds the map as the code runs on an object made by `{}`: a row for `__proto__` is dropped. With no such row, the result is the intended `MapOf`. |
| Categories.CategoryMapAsWrittenSpec | app/page.tsx:31-34 | As written, the keys are distinct, every category except `__proto__` maps to its last row's count, and `__proto__` has no entry. |
| Categories.MapAsWrittenAgrees | app/page.tsx:31-34 | With no row named `__proto__`, the map as written is the intended map. |
| Categories.ProtoCategoryDropped | app/page.tsx:32 | A single `__proto__` row leaves the map as written empty, while the intended map lists it. |
| Categories.CategoryMapSpec | app/page.tsx:31-34 | Intended map: one key per grouped category, each mapped to its last row's count, which is its own count when the rows are distinct. |
| Categories.LastCountOfDistinct | app/page.tsx:31-34 | With distinct categories, the last row for a category is its only row. |
| Categories.CountCategories | app/categories/page.tsx:16-19 | The counting loop builds the count as the code runs on `{}`. Keys are distinct and each category gets its `Tally`. With no category named after a prototype member, the result is exactly the intended counts, as numbers. |
| Categories.OccurrencesStep | app/categories/page.tsx:17 | One more product adds one to its own category's number of products and nothing to the others. |
| Categories.BumpTally | app/categories/page.tsx:17 | `(acc[c] \|\| 0) + 1` on a category other than `__proto__` turns its tally for `k` products into the tally for `k + 1`: a number goes up by one, and the text of a prototype member gains a `1`. |
| Categories.TallyStep | app/categories/page.tsx:17-18 | One step as written keeps the accumulator the tally table of the categories read so far. |
| Categories.CountAsWrittenSpec | app/categories/page.tsx:16-19 | As written, the keys are distinct. An ordinary category maps to its number of products. `__proto__` gets no entry. Any other prototype member maps to the member's text followed by one `1` per product. |
| Categories.PrototypeNamesMiscounted | app/categories/page.tsx:17 | Two `constructor` products count as the text `function Object() { [native code] }11` and a `__proto__` product vanishes, where the intended counts are 2 and 1. |
| Categories.AsNumbers | app/categories/page.tsx:16-19 | Each count stays in place under its key, as a number. |
| Categories.AsNumbersIndex | app/categories/page.tsx:16-19 | Turning counts into numbers keeps every key's position. |
| Categories.AsNumbersPut | app/categories/page.tsx:17 | Assigning a number commutes with turning counts into numbers. |
| Categories.AsNumbersBump | app/categories/page.tsx:17 | Off the prototype members, the step as written adds one exactly as the numeric `acc[c] \|\| 0` does. |
| Categories.CountAsWrittenAgrees | app/categories/page.tsx:16-19 | With no category named after a prototype member, the count as written is the intended count, as numbers. |
| Categories.SumAppend | app/categories/page.tsx:16-19 | Appending an entry adds its count to the sum. |
| Categories.SumUpdate | app/categories/page.tsx:16-19 | Updating an entry changes the sum by the difference. |
| Categories.CountStep | app/categories/page.tsx:17-18 | One step of the intended reduce keeps the accumulator the count table of the categories read so far. |
| Categories.CountsOfAll | app/categories/page.tsx:16-19 | The intended reduce builds the count table of all the categories. |
| Categories.CountSpec | app/categories/page.tsx:16-19 | Intended count: every category maps to its number of products, and only occurring categories are keys. So counts are at least 1, keys are distinct, and the counts sum to the product count. |
| Categories.ByCount | app/categories/page.tsx:21 | A permutation of the counts, in non-increasing count order. |
| Categories.PermutationKeepsDistinct | app/categories/page.tsx:16-21 | A permutation of a list with distinct keys has distinct keys. |
| Categories.MultisetTwice | app/categories/page.tsx:16-21 | An entry at two positions occurs twice in the multiset. |
| Categories.MultisetOnce | app/categories/page.tsx:16-21 | An entry of a list with distinct keys occurs once. |
| Categories.CategoriesPage | app/categories/page.tsx:16-21 | On the intended counts, the page lists each counted category once with its number of products, at least 1, and every category with products appears. |
| Categories.ListedWithCounts | app/categories/page.tsx:21 | Any reordering of the count table gives each listed category its number of products, at least 1. |
| Categories.AllListed | app/categories/page.tsx:21 | Any reordering of the count table lists every category with products. |
| Categories.OccursCounted | app/categories/page.tsx:16-19 | A category that occurs has a count of at least 1. |
| Analytics.SearchQuery | app/admin/analytics/page.tsx:12 | The query is lower-cased and defaults to the empty string. |
| Analytics.Select | app/admin/analytics/page.tsx:20-44 | The lines of orders not cancelled whose title contains the query, ignoring case: every selected line occurs as many times as in the input and no other line occurs. |
| Analytics.SelectAppend | app/admin/analytics/page.tsx:20-44 | The filter keeps order: selecting from two runs of lines gives the two selections one after the other. |
| Analytics.EmptyQueryKeepsAll | app/admin/analytics/page.tsx:20-44 | An empty query keeps every line of an order that is not cancelled. |
| Analytics.Aggregate | app/admin/analytics/page.tsx:47-62 | The reduce loop builds `StatsOf` of the lines. |
| Analytics.FirstOf | app/admin/analytics/page.tsx:49-58 | The first line for a product: a line for it at some position with no line for it before, or none exactly when the product has no line. |
| Analytics.StepReports | app/admin/analytics/page.tsx:48-61 | One reduce step keeps the accumulator the report of the lines read so far. |
| Analytics.StatsSpec | app/admin/analytics/page.tsx:47-62 | Each product with a line has one entry, with quantity and revenue summed over its lines and the other fields from its first line. No other key appears. |
| Analytics.ZeroWithoutLines | app/admin/analytics/page.tsx:47-62 | A product without lines has zero quantity and revenue. |
| Analytics.StepRevenue | app/admin/analytics/page.tsx:59-60 | One reduce step adds the line's revenue to the revenue total. |
| Analytics.StepSold | app/admin/analytics/page.tsx:59-60 | One reduce step adds the line's quantity to the quantity total. |
| Analytics.TotalsAgree | app/admin/analytics/page.tsx:47-67 | Overall revenue and items sold equal the sums of the per-product figures. |
| Analytics.Values | app/admin/analytics/page.tsx:64 | `Object.values`: the entries' values, in order. |
| Analytics.SortedProducts | app/admin/analytics/page.tsx:64 | A permutation of the per-product figures, highest revenue first. |
| OrderTimeline.CurrentStepIndex | components/order-status-timeline.tsx:18 | The first step matching the status, or -1 exactly when none matches. |
| OrderTimeline.FindFrom | components/order-status-timeline.tsx:18 | The first matching step from a position on. |
| OrderTimeline.Views | components/order-status-timeline.tsx:28-43 | One view per step, in step order, each with its completed, current and connector flags. |
| OrderTimeline.CancelledShortCircuits | components/order-status-timeline.tsx:20-24 | A cancelled order shows no steps; any other status shows all five. |
| OrderTimeline.TimelineSpec | components/order-status-timeline.tsx:30-43 | Completed steps form a prefix up to the current one, and an unknown status completes none. Exactly one step is current for a known status. The connector into step `i > 0` is lit iff step `i` is completed. |
| OrderTimeline.TimelineExamples | components/order-status-timeline.tsx:10-16 | A delivered order completes every step, a new one only the first. |
| EnvLoader.FirstSeparator | scripts/verify-smtp.ts:12 | The first `=`, `:` or `#`, or -1 when none occurs. |
| EnvLoader.UpToLineEnd | scripts/verify-smtp.ts:12 | The prefix before the first line terminator. |
| EnvLoader.StripQuotes | scripts/verify-smtp.ts:14 | One surrounding pair of quote characters is removed, or the value is kept. |
| EnvLoader.MatchLine | scripts/verify-smtp.ts:10-14 | A line with a non-empty key before its first separator `=` or `:` gives the trimmed key and the trimmed, unquoted value. |
| EnvLoader.ParseAll | scripts/verify-smtp.ts:10 | Each line parsed on its own, in order. |
| EnvLoader.LoadStep | scripts/verify-smtp.ts:10-17 | Loading one more line applies that line's effect. |
| EnvLoader.FirstValue | scripts/verify-smtp.ts:15-17 | The first non-empty value given to a key, which some line names. |
| EnvLoader.LoadSpec | scripts/verify-smtp.ts:15-17 | A variable with a non-empty value keeps it. Otherwise it gets the first non-empty value the lines give, and otherwise it is empty if set. |
| EnvLoader.LoadKeys | scripts/verify-smtp.ts:10-17 | After loading, a variable is present iff it was set before or some line names it. |
| EnvLoader.NeverOverwrites | scripts/verify-smtp.ts:15-17 | A non-empty variable is never overwritten, and none is removed. |
| EnvLoader.DotEnvWins | scripts/verify-smtp.ts:28-29 | A non-empty value from `.env` survives `.env.local`. |
| EnvLoader.KeyValueLine | scripts/verify-smtp.ts:10-14 | `key=value` or `key:value` sets the trimmed key to the trimmed, unquoted rest; the first separator decides. |
| EnvLoader.SeparatorAfterKey | scripts/verify-smtp.ts:11 | With a key free of separators, the first separator is the one after the key. |
| EnvLoader.IgnoredLine | scripts/verify-smtp.ts:12 | A line starting with `=`, `:` or `#` is ignored. |
| EnvLoader.NoSeparatorLine | scripts/verify-smtp.ts:12 | A line with no separator is ignored. |
| EnvLoader.Environment.constructor | scripts/verify-smtp.ts:15 | The environment starts with the given variables. |
| EnvLoader.Environment.LoadEnv | scripts/verify-smtp.ts:6-25 | A missing file changes nothing. Otherwise the new variables are `LoadLines` over the file's `\n`-separated lines. |
| EnvLoader.Environment.SetUnlessSet | scripts/verify-smtp.ts:15-17 | One matched line sets an unset or empty variable and leaves the rest. |
| EnvLoader.Environment.LoadBoth | scripts/verify-smtp.ts:28-29 | `.env` then `.env.local`, in that order. |
| Variants.LegacyAppend | components/variants-input.tsx:23-29 | Converting consecutive entries concatenates their conversions. |
| Variants.LegacySpec | components/variants-input.tsx:23-29 | Each converted pair comes from an array-valued key, joined by commas, and each such key gives one. Other keys are dropped. |
| Variants.ConvertLegacy | components/variants-input.tsx:23-29 | The loop pushes one pair per array-valued key, in order. |
| Variants.InitialVariants | components/variants-input.tsx:14-33 | No text or empty text gives `[]`. An array is used as is, a legacy object converted, anything else gives `[]`. |
| Variants.SpliceStart | components/variants-input.tsx:41 | `splice`'s start: a negative index counts from the end, clamped to `[0, len]`. |
| Variants.RemoveAt | components/variants-input.tsx:39-44 | The element at that position is removed; an index past the end removes nothing. |
| Variants.DropAt | components/variants-input.tsx:41 | Dropping one position keeps the others in order and takes exactly that element out of the multiset. |
| Variants.RemoveSpec | components/variants-input.tsx:39-44 | Exactly one element goes when the start lies in the list, the rest keep their order, and the multiset loses only it. |
| Variants.RemoveAddedLast | components/variants-input.tsx:35-44 | Removing the pair just added gives back the list before. |
| Variants.SetField | components/variants-input.tsx:46-51 | Only the chosen field changes. |
| Variants.SetFieldLaws | components/variants-input.tsx:46-51 | Setting a field twice keeps the last value, and setting it to its own value changes nothing. |
| Variants.VariantsEditor.constructor | components/variants-input.tsx:14-33 | The initial list, as `InitialVariants` gives it. |
| Variants.VariantsEditor.AddVariant | components/variants-input.tsx:35-37 | A blank pair is appended and the rest stay. |
| Variants.VariantsEditor.RemoveVariant | components/variants-input.tsx:39-44 | The list becomes `RemoveAt` of the old one. |
| Variants.VariantsEditor.UpdateVariant | components/variants-input.tsx:46-51 | For an index in range, only that pair's field changes. Otherwise the call fails and nothing changes. |
| Discounts.Normalize | actions/discount.ts:26-33 | Empty code, percentage, amount and product fields become absent; the rest pass as read. |
| Discounts.Validate | actions/discount.ts:8-18 | A validated percentage lies in [0, 100] and an amount is at least 0, and one of them is truthy. Validation fails exactly when a date is missing, a number is bad or out of bounds, or neither value is truthy. |
| Discounts.RejectedForms | actions/discount.ts:10-18 | Zero or absent values, a percentage over 100 and a negative amount are rejected. |
| Discounts.AmountOnlyAccepted | actions/discount.ts:26-33 | An empty percentage counts as absent, so an amount-only form passes. |
| Discounts.ToPrice | actions/discount.ts:41-50 | The stored discount carries the same percentage and amount into the price calculation. |
| Discounts.ValidatedWithinPrice | actions/discount.ts:10-18 | A validated discount keeps every discounted price within [0, price]. |
| Discounts.DiscountTable.constructor | actions/discount.ts:41 | No discounts. |
| Discounts.DiscountTable.CreateDiscount | actions/discount.ts:20-57 | A non-super-admin is refused; an invalid form is rejected; a failed insert changes nothing; otherwise the discount is stored under its id. |
| Discounts.DiscountTable.DeleteDiscount | actions/discount.ts:59-75 | A non-super-admin is refused; a missing id fails; otherwise exactly that discount is removed. |
| Profile.ValidateProfile | actions/profile.ts:9-12 | Valid iff the name has at least 2 characters and the phone at least 10. |
| Profile.NormalizeAddress | actions/profile.ts:59-68 | Empty optional fields become absent, and the country defaults to Iraq. |
| Profile.ValidateAddress | actions/profile.ts:14-23 | Valid iff label, city, state and landmark are non-empty. The country falls back to Iraq and the optional fields pass through. |
| Profile.AcceptedAddress | actions/profile.ts:59-73 | An accepted address has no empty optional field and a non-empty country, Iraq by default. |
| Profile.FindAddress | actions/profile.ts:98-100 | The address with the id, or none exactly when it is missing. |
| Profile.OwnedBy | actions/profile.ts:140-141 | Exactly the table's addresses that belong to the user. |
| Profile.UserAddresses | actions/profile.ts:140-143 | Exactly the user's addresses, newest first. |
| Profile.RemoveAddress | actions/profile.ts:106-108 | No address keeps the id, and every other address stays. |
| Profile.ProfileStore.constructor | actions/profile.ts:25 | The given accounts and no addresses. |
| Profile.ProfileStore.UpdateProfile | actions/profile.ts:25-51 | Without a session, or with an invalid form, nothing changes. Otherwise the name and phone are set. |
| Profile.ProfileStore.AddAddress | actions/profile.ts:53-89 | Without a session, an invalid form or a failed insert, nothing changes. Otherwise the normalised address is appended for the user. |
| Profile.ProfileStore.DeleteAddress | actions/profile.ts:91-114 | Only the owner deletes. A missing or foreign address is refused, and nothing changes. |
| Profile.ProfileStore.CompleteOnboarding | actions/profile.ts:116-132 | The session user's onboarding flag is set. Without a session, or for a missing account, nothing changes. |
| Profile.ProfileStore.GetAddresses | actions/profile.ts:133-149 | `[]` without a session. Otherwise exactly the user's addresses, newest first. |
| CategoryConfig.TableShape | lib/category-config.tsx:10-54 | The table's names are distinct, and none is a prototype member. |
| CategoryConfig.GetCategoryConfigAsWritten | lib/category-config.tsx:56-58 | As written: an own entry, an inherited prototype member, or the fallback. |
| CategoryConfig.InheritedNameEscapes | lib/category-config.tsx:57 | `constructor` and `toString` get an inherited function instead of a configuration. |
| CategoryConfig.GetCategoryConfig | lib/category-config.tsx:56-58 | Corrected: a name's own entry when it has one, otherwise the default under that name. |
| CategoryConfig.KnownNames | lib/category-config.tsx:47-57 | Every table name gets its entry, and `default` gets the default entry. |
| CategoryConfig.UnknownName | lib/category-config.tsx:47-57 | Any other name gets the default's description, icon and gradient, with itself as the Arabic name. |
| CategoryConfig.AsWrittenAgrees | lib/category-config.tsx:57 | Code and correction agree on every name that is not a prototype member. |
| Search.Query | app/search/page.tsx:15 | A missing query becomes the empty string. |
| Search.DropEmpty | app/search/page.tsx:18 | The non-empty pieces, and nothing produced is empty. |
| Search.DropEmptyAppend | app/search/page.tsx:18 | Filtering distributes over concatenation, so order is preserved. |
| Search.Terms | app/search/page.tsx:18 | No term is empty or contains a space. |
| Search.TermsAround | app/search/page.tsx:18 | The terms of `a + " " + b` are those of `a` followed by those of `b`. |
| Search.BlankQuery | app/search/page.tsx:18 | A query of spaces only has no terms. |
| Search.Results | app/search/page.tsx:20-31 | A product is listed iff some term occurs in its title, description or category, or there are no terms. |
| Search.NoTermsListsAll | app/search/page.tsx:22 | With no terms every product is listed, in order. |
| Search.MoreTermsWiden | app/search/page.tsx:22-28 | Joining two queries matches iff either one matches. |
| Search.TermInside | app/search/page.tsx:22-28 | A term inside a title matches. |
| Sorting.Insert | components/category-grid.tsx:18-28 | Inserting into a sorted list keeps it sorted and adds exactly that element. |
| Sorting.PrefixWithin | app/page.tsx:72 | A prefix of a permutation of a list draws only on that list. |
| Sorting.SortBy | app/categories/page.tsx:21 | The result is a permutation of the input, sorted by the key. |
| Records.IndexOfKey | app/page.tsx:31-34 | The position of a key, or none exactly when it is absent. |
| Records.Get | app/page.tsx:31-34 | The own entry of a key: the value at its position, or none exactly when the key was never assigned. |
| Records.Read | app/categories/page.tsx:17 | `obj[k]` on an object made by `{}`: the own value when the key was assigned, otherwise the inherited member exactly when `k` names a member of `Object.prototype`, otherwise undefined. |
| Records.Put | app/page.tsx:31-34 | Assigning replaces a key in place or appends a new entry. |
| Records.PutSpec | app/categories/page.tsx:16-19 | After assigning, the key reads the new value, others keep theirs, and the keys stay distinct. |
| Records.GetAt | app/page.tsx:31-34 | With distinct keys, reading the key at a position gives its value. |
| Records.SumByUpdate | app/admin/analytics/page.tsx:59-60 | Updating one entry changes the field sum by the difference. |
| Records.SumByPut | app/admin/analytics/page.tsx:59-60 | Assigning a key changes the sum by the new value less the replaced one. |
| Common.NonEmpty | actions/discount.ts:26-33 | `x \|\| undefined`: an empty string becomes absent. |
| Common.ToLower | app/api/auth/send-otp/route.ts:37 | Lower-cases ASCII letters and keeps the length. |
| Common.Split | app/search/page.tsx:18 | `split` gives at least one piece, and no piece contains the separator. |
| Common.JoinSplit | components/variants-input.tsx:27 | Joining the pieces of a split gives back the text. |
| Common.Trim | scripts/verify-smtp.ts:13-14 | `trim`: the result is a slice `s[i..j]` with only white space outside it, and it neither starts nor ends with white space. |
| Common.SpaceAround | scripts/verify-smtp.ts:13-14 | Cutting leading and then trailing white space leaves such a slice. |
| Common.NatToString | app/api/auth/send-otp/route.ts:45 | `toString`: a non-empty string of digits. |
| Common.DigitsRoundTrip | app/api/auth/send-otp/route.ts:45 | Reading back a number's digits gives the number. |
| Common.CodeWidths | app/api/auth/2fa/generate/route.ts:71 | Codes from `1000..9999` have four digits, those from `100000..999999` six. |

## Left out

- The mail transport, randomness and bcrypt are parameters: the mailer's
  answer (`delivered`), the drawn code (with a range precondition), and an
  uninterpreted `compare`.
- Prisma is modelled as in-memory tables. A table's ids grow in creation
  order, and "newest" means the greatest id. Column defaults are assumed
  because the schema file is not part of this model:
  - token rows start with attempts 0, unverified, `createdAt` now;
  - the user `verify-otp` creates (`VerifyOtp.NewUser`,
    app/api/auth/verify-otp/route.ts:88-94) gets role `"USER"`,
    `twoFactorEnabled` false and no `emailVerifiedAt`.
- The user table appears in three places: the identity routes' database
  (`Store.Db.users`), the shop's tables (`Orders.Shop.users`) and the
  profile forms' accounts (`Profile.ProfileStore.accounts`). They stand for
  the same Prisma table. Each module models only the columns it touches,
  and nothing ties the three copies together.
- Database failures. Unique-constraint errors (P2002) and a thrown `update`
  on a missing row are one failure outcome that changes nothing, in the
  admin and profile actions (`Failed`), in `2fa/toggle` (`ServerError`)
  and in `verify-email` (`LinkServerError`, `CodeServerError`). The other
  routes' catch-all 500 answers are left out, since every database call
  they make succeeds in the model: app/api/auth/send-otp/route.ts:77,
  app/api/auth/verify-otp/route.ts:190,
  app/api/auth/2fa/generate/route.ts:99,
  app/api/auth/2fa/verify/route.ts:112 and
  app/api/auth/send-verification/route.ts:99.
- Concurrency, the non-atomic delete-then-create, and the per-process
  rate-limit maps across server instances are left out. Each map is one
  sequential object.
- zod, `JSON.parse`/`JSON.stringify` and the regular-expression engine are
  not modelled as such. Their results are written as predicates:
  - the e-mail patterns;
  - `min(n)` lengths;
  - `z.coerce.number()` as an abstract `toNumber` that yields a finite
    number or a rejection (zod rejects `NaN`).
- Discounts.Validate: infinite numbers are not modelled. zod 3 accepts
  `Infinity`, so an amount that coerces to `+Infinity` passes `min(0)` in
  the source; the model's `toNumber` has no such value.
- Letter case: `toLowerCase` covers ASCII only.
- String length: `length` counts characters, not UTF-16 code units.
- Text search: Prisma's `contains` is case-sensitive in the search page.
  The analytics filter lower-cases both sides.
- Lists and ties:
  - Search results keep table order.
  - Address lists sorted newest first use Prisma's order, so ties are left
    unspecified.
  - Sort stability is not claimed anywhere.
- `Date` parsing: discount dates are stored as the submitted text.
  `Discounts.ToPrice` takes their parsed values as integers.
- Floating point: prices are whole dinars, and the percentage discount is an
  exact `real`.
- `Object.entries` puts integer-like keys first. The model keeps insertion
  order, which agrees for the category and product names these pages use.
- Cache revalidation (`revalidatePath`), redirects, localStorage and all
  rendering are left out.
- Legacy variant arrays are given by their elements as `join` renders them.
  `onUpdate` and its `JSON.stringify` are left out.
- Seed, maintenance and debug scripts, the upload route, the register
  action, calendar period filters and presentation-only status maps are out
  of scope.
- TwoFactorVerify.AttemptsNeverExceeded: the code is followed, not the
  usual "five wrong attempts lock the code" rule. The lookup filters on the
  submitted code, so a wrong code matches no row and no attempt is counted.
  A user is stopped only by the route's budget of 5 calls per 15 minutes,
  which `FiveWrongCodesThenBudget` states.
- Categories.CountSpec, Categories.CountStep, Categories.OccursCounted and
  Categories.CategoriesPage state the intended count, on numbers. As
  written, the reduce runs on an object made by `{}`, where a category
  named after a member of `Object.prototype` is miscounted. That behaviour
  is `CountOfAsWritten`, stated by `CountAsWrittenSpec` and
  `CountCategories`. The two agree off those names
  (`CountAsWrittenAgrees`); see Findings.
- Categories.CategoriesPage: the sort is not modelled on the text counts
  the code produces for prototype-member names (`b[1] - a[1]` is `NaN`
  there).
- Categories.CategoryMapSpec states the intended home-page map. As written
  a `__proto__` row is dropped (`CategoryMapAsWrittenSpec`); see Findings.
- Records.Get reads own entries only. The members inherited from
  `Object.prototype` are read by `Records.Read`, which the as-written
  members use.
- Analytics.StatsSpec keys the report by product id and takes no id to be
  a member of `Object.prototype`; the ids are generated by the database.
- EnvLoader.LoadSpec takes no variable name to be a member of
  `Object.prototype`; as written, a variable called `toString` would never
  be set.
- Auth.CodeWorksOnce: it states that a consumed code cannot sign in again.
  It does not state that the e-mail code path is closed after a
  second-factor sign-in, because that row is not consumed.

## Findings

| source | as written | input that shows it | evidently intended | confidence | as-written member | corrected member |
|---|---|---|---|---|---|---|
| app/categories/page.tsx:17 | `acc[c] \|\| 0` also reads members inherited from `Object.prototype`, and `acc["__proto__"] = n` goes to the inherited setter | two products in category `constructor` count as the text `function Object() { [native code] }11`; a product in category `__proto__` is not listed | each category maps to its number of products | high; not executed | Categories.CountOfAsWritten, Categories.CountAsWrittenSpec, Categories.PrototypeNamesMiscounted, Categories.CountCategories | Categories.CountOf, Categories.CountSpec, Categories.CategoriesPage |
| app/page.tsx:32 | `acc[c] = n` with `c == "__proto__"` goes to the inherited setter, which ignores a number | a grouped row for category `__proto__` leaves the map empty | each grouped category maps to its count | high; not executed | Categories.MapOfAsWritten, Categories.CategoryMapAsWrittenSpec, Categories.ProtoCategoryDropped, Categories.BuildCategoryMap | Categories.MapOf, Categories.CategoryMapSpec |
| lib/category-config.tsx:57 | `categoryConfig[name]` also reads members inherited from `Object.prototype`, so the `\|\|` fallback is skipped for them | a category named `constructor` (or `toString`) gets the `Object` function back instead of a configuration | names without an own entry get the default configuration under their own name | high; not executed | CategoryConfig.GetCategoryConfigAsWritten, CategoryConfig.InheritedNameEscapes | CategoryConfig.GetCategoryConfig, CategoryConfig.KnownNames, CategoryConfig.UnknownName |
