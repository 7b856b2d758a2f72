# 5J Kitchens storefront — a Dafny model of its core

5J Kitchens is a small storefront for butters, dairy and dressings. It has a static product catalog, a
shop page with category filtering and sorting, a client-side cart with a shipping rule, a checkout
endpoint that records orders, a newsletter signup, and an admin area behind a session cookie. In the
admin area, users can be managed and newsletters broadcast. This project models that behaviour in
Dafny and proves what it promises.

- **Catalog, shop, cart and cart page.** These are pure functions: the product table, the slug lookup,
  the related-products chain, the shop's filter and sorts, the cart reducer over its six actions, the
  two totals, and the page's shipping, total and hint. Money is in integer cents, so $50.00 is 5000
  and $7.99 is 799.
- **The e-mail pattern.** `^[^\s@]+@[^\s@]+\.[^\s@]+$` is written once (module `Email`) in two forms:
  as what the anchored regular expression accepts, and as a hand-written check. A lemma proves the two
  agree on every string. The signup form, the subscribe endpoint and the checkout endpoint all use it.
- **The admin guard and the login endpoint.** Both are decision functions. Token verification, token
  signing and password comparison are parameters, so nothing about signatures or hashing is assumed.
- **The store.** The store is a class `Db.Database` holding users, subscribers and orders, with a
  counter handing out record ids. Each endpoint that writes is a method taking that store, tied to a pure
  function (`UsersRoute.Create`, `SubscribeRoute.Subscribe`, `CheckoutRoute.Checkout`, `Seed.Seeded`).
  The listed properties are proved about those functions.
- **The two admin client components.** The user table and the newsletter composer are classes whose
  fields are the component's state. Each handler that awaits a request is split into two methods: the
  part before the request returns what is sent, and the part after it takes the reply as a parameter.
- **The newsletter signup form.** This is a class with `email`, `status` and `errorMsg`.

## Model

| member | source | states |
|---|---|---|
| Catalog.CatalogWellFormed | src/data/products.ts:15-128 | the eight products have pairwise distinct ids and slugs, and every price is positive |
| Catalog.FindBySlug | src/data/products.ts:130-131 | the first product whose slug equals the argument; nothing exactly when no slug matches |
| Catalog.FindBySlugUnique | src/data/products.ts:130-131 | with distinct slugs, looking up any product's slug finds that product |
| Catalog.GetProductBySlug | src/data/products.ts:130-131 | the slug lookup over the eight products; `FindBySlug` and `FindBySlugUnique` give its result |
| Catalog.SliceToProperties | src/data/products.ts:133-146 | `slice(0, n)` never yields more than n elements, keeps everything for n at least the length and nothing for 0, is idempotent, takes from the first part of a concatenation before the second, and `slice(0, -1)` drops the last element |
| Catalog.Filter | src/data/products.ts:135 | keeps exactly the elements satisfying the predicate |
| Catalog.FilterSubseq | src/data/products.ts:135 | the filtered list keeps catalog order (it is a subsequence) |
| Catalog.RelatedExcludesProduct | src/data/products.ts:133-146 | related products come from the catalog and never include the argument's id |
| Catalog.RelatedProducts | src/data/products.ts:133-146 | the related-products chain over a catalog; its shape, length, category and distinctness are the next four rows |
| Catalog.RelatedShape | src/data/products.ts:133-146 | for count ≥ 0 the result is the first same-category products, then the first other-category ones, in catalog order |
| Catalog.RelatedLength | src/data/products.ts:133-146 | for count ≥ 0 the length is min(count, number of catalog products with a different id) |
| Catalog.RelatedStaysInCategory | src/data/products.ts:144 | with at least `count` same-category products, no other category appears |
| Catalog.RelatedDistinct | src/data/products.ts:133-146 | with distinct catalog ids, the result has no duplicates because the two pools are disjoint |
| Shop.LexLeqTotal | src/app/shop/page.tsx:19 | the name order is total |
| Shop.LexLeqTransitive | src/app/shop/page.tsx:19 | the name order is transitive |
| Shop.OrderIsTotalPreorder | src/app/shop/page.tsx:17-19 | each sort key's comparator is a total preorder |
| Shop.Shown | src/app/shop/page.tsx:14-21 | the category filter, then the chosen sort; the three rows below give what it returns |
| Shop.FilterByCategoryContents | src/app/shop/page.tsx:15 | "all" keeps the catalog; a category keeps exactly its products, in catalog order |
| Shop.ShownDefault | src/app/shop/page.tsx:20 | the default sort returns the filtered list as it is |
| Shop.ShownSorted | src/app/shop/page.tsx:16-19 | the other sorts return a permutation of the filtered list, ordered by price up, price down or name |
| Shop.ShowingCountIsCategorySize | src/app/shop/page.tsx:107 | "Showing N products" counts the filtered list |
| Sorting.SortBy | src/app/shop/page.tsx:17-19 | the sorted copy is a permutation of its input |
| Sorting.SortBySorted | src/app/shop/page.tsx:17-19 | with a total preorder, the sorted copy is ordered |
| Cart.WithoutLine | src/context/CartContext.tsx:48 | keeps exactly the lines whose product id differs |
| Cart.AddExisting | src/context/CartContext.tsx:26-37 | adding a product already in the cart adds `quantity ?? 1` to its line only, and opens the cart |
| Cart.AddAbsent | src/context/CartContext.tsx:39-43 | adding an absent product appends one line at the end, and opens the cart |
| Cart.RemoveLine | src/context/CartContext.tsx:45-49 | removal drops the one line with that id and keeps the other lines in order; an absent id changes nothing |
| Cart.WithoutAbsent | src/context/CartContext.tsx:48 | filtering out an absent id is the identity |
| Cart.WithoutPresent | src/context/CartContext.tsx:48 | with unique ids, filtering out the id at position k removes exactly position k |
| Cart.UpdateNonPositiveIsRemove | src/context/CartContext.tsx:50-56 | an update to zero or less is exactly REMOVE_ITEM |
| Cart.UpdatePositive | src/context/CartContext.tsx:57-62 | a positive update sets that line to exactly that quantity; an absent id changes nothing |
| Cart.OpenFlag | src/context/CartContext.tsx:24-72 | which actions set or clear the open flag, and which leave the lines alone |
| Cart.ClearAndToggle | src/context/CartContext.tsx:63-68 | clearing zeroes both totals; open and close change only the flag |
| Cart.WithoutKeepsUnique | src/context/CartContext.tsx:48 | filtering keeps product ids unique |
| Cart.WithoutKeepsPositive | src/context/CartContext.tsx:48 | filtering keeps quantities positive |
| Cart.Reduce | src/context/CartContext.tsx:24-72 | the reducer over the six actions; the action rows above and the two invariant rows below state its cases |
| Cart.Run | src/context/CartContext.tsx:24-72 | dispatching actions in order; `RunKeepsInvariant` states what it preserves |
| Cart.ReduceKeepsUnique | src/context/CartContext.tsx:24-72 | every action keeps one line per product id |
| Cart.ReduceKeepsPositive | src/context/CartContext.tsx:24-72 | actions adding a positive or omitted quantity keep every quantity at least 1 |
| Cart.RunKeepsInvariant | src/context/CartContext.tsx:24-72 | any such action sequence keeps ids unique and quantities positive, so the unit count is never below the line count |
| Cart.TotalAtLeastLines | src/context/CartContext.tsx:92 | with positive quantities, the unit count is at least the number of lines |
| Cart.TotalItems | src/context/CartContext.tsx:92 | the unit count, the sum of the quantities; the total rows below state how each action changes it |
| Cart.Subtotal | src/context/CartContext.tsx:93 | the sum of price × quantity in cents; the total rows below state how each action changes it |
| Cart.TotalsAppend | src/context/CartContext.tsx:92-93 | both folds distribute over concatenation |
| Cart.TotalsUpdateAt | src/context/CartContext.tsx:92-93 | changing one line changes the totals by that line's difference |
| Cart.AddExistingTotals | src/context/CartContext.tsx:26-37 | adding to an existing line raises the units by the quantity and the subtotal by price × quantity |
| Cart.AddAbsentTotals | src/context/CartContext.tsx:39-43 | adding a new line raises the units by the quantity and the subtotal by price × quantity |
| Cart.TotalsRemoveAt | src/context/CartContext.tsx:92-93 | the totals split off any one line |
| Cart.TotalsPermutation | src/context/CartContext.tsx:92-93 | the totals do not depend on the order of the lines |
| CartPage.ShippingRule | src/app/cart/page.tsx:25 | shipping is free exactly from $50.00 up and $7.99 below; $50.00 itself ships free |
| CartPage.TotalOverSubtotal | src/app/cart/page.tsx:26 | total − subtotal is 0 or $7.99 |
| CartPage.HintWhenCharged | src/app/cart/page.tsx:123-127 | the hint appears exactly when shipping is charged, and asks for a positive amount that reaches $50.00 |
| CartPage.LineAmountsSum | src/app/cart/page.tsx:99-115 | the displayed line amounts sum to the subtotal |
| CartPage.ViewContents | src/app/cart/page.tsx:10-32 | an empty cart shows only the empty view; otherwise the header counts lines, each amount is price × quantity, and total = subtotal + shipping |
| CartPage.WorkedExample | src/app/cart/page.tsx:25-32 | three Classic Butters and one Herb Butter: $37.96 subtotal, $7.99 shipping, $45.95 total, "2 items" for 4 units, hint $12.04 |
| CartPage.Shipping | src/app/cart/page.tsx:25 | the shipping charge; `ShippingRule` states it |
| CartPage.Total | src/app/cart/page.tsx:26 | subtotal plus shipping; `TotalOverSubtotal` bounds the difference |
| CartPage.FreeShippingHint | src/app/cart/page.tsx:123-127 | the amount still missing for free shipping; `HintWhenCharged` states when it appears |
| CartPage.View | src/app/cart/page.tsx:10-32 | what the page shows; `ViewContents` and `LineAmountsSum` state its fields |
| Middleware.PassesIff | src/middleware.ts:8-27 | a request passes exactly when its path is unguarded or its token verifies |
| Middleware.UnguardedPaths | src/middleware.ts:12 | paths outside /admin and under /admin/login pass whatever the cookies and verifier say |
| Middleware.LoginPathUnguarded | src/middleware.ts:12 | the login page is not guarded, so it never redirects to itself; /admin/users is guarded |
| Middleware.GuardedOutcomes | src/middleware.ts:13-26 | no token: redirect deleting nothing; failing token: redirect deleting admin_token; valid token: pass |
| Middleware.RedirectShape | src/middleware.ts:15-21 | every redirect targets /admin/login and only admin_token is ever deleted |
| Middleware.Guard | src/middleware.ts:8-27 | the middleware's decision; the five rows above state its outcomes |
| LoginRoute.MissingFieldsFirst | src/app/api/admin/login/route.ts:9-11 | a missing or empty field gives 400 whatever the store, the password check and the signer |
| LoginRoute.AntiEnumeration | src/app/api/admin/login/route.ts:13-21 | an unknown username and a wrong password give the identical 401 "Invalid credentials." |
| LoginRoute.PasswordBeforeRole | src/app/api/admin/login/route.ts:18-25 | a non-admin gets 403 with the right password and 401 with a wrong one |
| LoginRoute.CookieOnlyForAdmins | src/app/api/admin/login/route.ts:13-36 | a cookie is set exactly when the user exists, the password matches and the role is "admin"; it is admin_token for the user's id, httpOnly, lax, path "/", 604800 s, secure exactly in production |
| LoginRoute.StatusCodes | src/app/api/admin/login/route.ts:9-36 | the status is one of 200, 400, 401, 403, and every non-200 is one of the three error bodies |
| LoginRoute.Login | src/app/api/admin/login/route.ts:5-37 | the endpoint's response; the five rows above state its outcomes |
| Db.FindByUsername | src/app/api/admin/login/route.ts:13 | finds a user with that username; none exactly when no user has it |
| Db.Database.InsertUser | src/app/api/admin/users/route.ts:28-31 | appends the user under a fresh id and keeps ids distinct |
| Db.Database.InsertOrder | src/app/api/checkout/route.ts:16-32 | appends the order under a fresh id and keeps ids distinct |
| UsersRoute.ListIsSortedSummaries | src/app/api/admin/users/route.ts:5-11 | the listing holds every user's hash-free summary exactly once, oldest first |
| UsersRoute.CreateOutcomes | src/app/api/admin/users/route.ts:16-32 | 400 for a missing field and 409 for a taken username or email, both leaving the users alone; otherwise 201 with one new row holding hash(password), role `|| "user"` and flag `?? false`, and a hash-free reply |
| UsersRoute.CreateKeepsUniqueLogins | src/app/api/admin/users/route.ts:20-31 | creating a user keeps usernames and emails unique |
| UsersRoute.List | src/app/api/admin/users/route.ts:5-11 | the hash-free listing ordered by creation time; `ListIsSortedSummaries` states it |
| UsersRoute.Create | src/app/api/admin/users/route.ts:13-33 | the endpoint on the user list; `CreateOutcomes` and `CreateKeepsUniqueLogins` state it |
| UsersRoute.Get | src/app/api/admin/users/route.ts:5-11 | returns `List` of the store's users; `ListIsSortedSummaries` states what that listing holds |
| UsersRoute.Post | src/app/api/admin/users/route.ts:13-33 | the store and the response are those of `Create`; subscribers and orders untouched |
| Seed.SeededHasAdmin | prisma/seed.ts:7-18 | afterwards butterchef exists; an existing one is kept as it was, otherwise exactly one admin row is added with hash("qw12QW!@") and the flag false |
| Seed.SeedIdempotent | prisma/seed.ts:7-22 | seeding twice equals seeding once |
| Seed.SeedKeepsUniqueLogins | prisma/seed.ts:7-18 | seeding keeps usernames and emails unique when the admin email is not already taken |
| Seed.SeededAdminCanLogIn | prisma/seed.ts:9-17 | on an empty store the seeded admin logs in with the seeded password and gets the cookie; another password gets 401 |
| Seed.Seeded | prisma/seed.ts:7-18 | the user list after the script; the four rows above state it |
| Seed.Run | prisma/seed.ts:6-23 | the store after the script is `Seeded` of the one before |
| SubscribeRoute.SubscribeOutcomes | src/app/api/newsletter/subscribe/route.ts:6-16 | success exactly for an email matching the pattern; a rejection changes nothing; a success leaves the address listed, keeps earlier entries and adds at most it |
| SubscribeRoute.SubscribeIdempotent | src/app/api/newsletter/subscribe/route.ts:10-14 | subscribing twice equals subscribing once |
| SubscribeRoute.SubscribeKeepsInvariant | src/app/api/newsletter/subscribe/route.ts:6-14 | the list never holds an address twice and holds only valid addresses |
| SubscribeRoute.Upserted | src/app/api/newsletter/subscribe/route.ts:10-14 | the upsert on the subscriber list; `SubscribeOutcomes` and `SubscribeIdempotent` state it |
| SubscribeRoute.Subscribe | src/app/api/newsletter/subscribe/route.ts:4-17 | the endpoint on the subscriber list; the three rows above state it |
| SubscribeRoute.Post | src/app/api/newsletter/subscribe/route.ts:4-17 | the store and the response are those of `Subscribe`; users and orders untouched |
| CheckoutRoute.CheckoutOutcomes | src/app/api/checkout/route.ts:8-34 | missing fields are reported before a bad email; an order is stored exactly when both checks pass, as the one new row, pending, with the name, email and address fields as given, empty phone or address2 as null, country defaulting to "US", and the subtotal and items as sent |
| CheckoutRoute.SubtotalIsTrusted | src/app/api/checkout/route.ts:29 | the stored subtotal is whatever the client sent |
| CheckoutRoute.OrderOf | src/app/api/checkout/route.ts:16-32 | the row written for an accepted request; `CheckoutOutcomes` states every one of its fields |
| CheckoutRoute.Checkout | src/app/api/checkout/route.ts:4-35 | the endpoint on the order list; `CheckoutOutcomes` and `SubtotalIsTrusted` state it |
| CheckoutRoute.Post | src/app/api/checkout/route.ts:4-35 | the store and the response are those of `Checkout`; users and subscribers untouched |
| SendRoute.FormGet | src/app/api/admin/newsletter/send/route.ts:7-8 | the value is that of the first entry under the name (null when that entry is a file); a name not present reads as null; a found value was a text field under that name |
| SendRoute.NonEmptyFiles | src/app/api/admin/newsletter/send/route.ts:9-22 | exactly the uploaded files under the name with at least one byte |
| SendRoute.NonEmptyFilesAppend | src/app/api/admin/newsletter/send/route.ts:9-22 | the files of a concatenated form are those of its first part followed by those of its second, so form order is kept |
| SendRoute.NonEmptyFilesSingle | src/app/api/admin/newsletter/send/route.ts:20-22 | one entry contributes its file exactly once when it is a non-empty file under the name, and nothing otherwise; with the previous row this fixes order and multiplicity |
| SendRoute.SendOutcomes | src/app/api/admin/newsletter/send/route.ts:11-42 | 400 for a missing subject or message, then 400 for no subscribers, neither mailing; otherwise one mail to every subscriber in order, whose attachments are the non-empty files in form order, one each; a returned `ok: false` is 500 with its message, a success counts recipients |
| SendRoute.DeliveredCountsRecipients | src/app/api/admin/newsletter/send/route.ts:42 | `sent` is the number of addresses mailed, and positive |
| SendRoute.MailOf | src/app/api/admin/newsletter/send/route.ts:20-36 | the mail request built past the checks; `SendOutcomes` states its fields |
| SendRoute.Send | src/app/api/admin/newsletter/send/route.ts:5-43 | the endpoint on the subscriber list; `SendOutcomes` and `DeliveredCountsRecipients` state it |
| SendRoute.Post | src/app/api/admin/newsletter/send/route.ts:5-43 | the response and the one mail request are those of `Send` on the store's subscribers |
| Compose.SuccessMessage | src/app/admin/newsletter/NewsletterCompose.tsx:34 | the success text is never empty |
| Compose.FailureMessage | src/app/admin/newsletter/NewsletterCompose.tsx:41 | the error text is never empty |
| Compose.SuccessMessageCounts | src/app/admin/newsletter/NewsletterCompose.tsx:34 | a non-empty server message is shown as is; without one (missing or empty) it reads "Email sent to N subscriber", with "s" exactly when N ≠ 1, and "undefined subscribers" without a count |
| Compose.FormRoundTrip | src/app/admin/newsletter/NewsletterCompose.tsx:22-27 | the endpoint reads back the composer's subject, message and non-empty files from the form it posts |
| Compose.SubmitThenSend | src/app/admin/newsletter/NewsletterCompose.tsx:19-42 | a non-blank submission to subscribers mails the composer's subject, message and files, and the page shows success exactly when the mailer succeeded, with the matching message |
| Compose.BlankSubjectPassesServer | src/app/api/admin/newsletter/send/route.ts:11 | a whitespace-only subject passes the endpoint's check; only the composer's trim stops it |
| Compose.Composer.BeginSubmit | src/app/admin/newsletter/NewsletterCompose.tsx:19-27 | a blank subject or message changes nothing; otherwise the status becomes sending and the form data holds subject, message and every file in order, and the send button is then disabled |
| Compose.Composer.FinishSubmit | src/app/admin/newsletter/NewsletterCompose.tsx:32-42 | ok: success, fields cleared, server message or count; otherwise error, fields kept, server error or fallback |
| Compose.Composer.EditSubject | src/app/admin/newsletter/NewsletterCompose.tsx:66 | editing the subject resets the status to idle |
| Compose.Composer.EditMessage | src/app/admin/newsletter/NewsletterCompose.tsx:81 | editing the message resets the status to idle |
| Compose.Composer.ChooseFiles | src/app/admin/newsletter/NewsletterCompose.tsx:99 | choosing files changes only the files |
| Compose.Composer.SubmitDisabled | src/app/admin/newsletter/NewsletterCompose.tsx:142 | the send button is disabled while sending and when there are no subscribers; `BeginSubmit` ensures it holds once a request is sent |
| NewsletterForm.Validate | src/components/Newsletter.tsx:14-18 | blank gives "Email address is required.", a non-match "Please enter a valid email address.", and "" exactly when the raw value matches the pattern |
| NewsletterForm.PaddingFailsPattern | src/components/Newsletter.tsx:15-16 | a non-blank value with white space at either end fails the format check |
| NewsletterForm.SignupForm.Submit | src/components/Newsletter.tsx:20-32 | a failing value is kept with its message and error status; a passing one clears into success |
| NewsletterForm.SignupForm.Edit | src/components/Newsletter.tsx:104 | editing resets the status to idle and clears the error |
| UserTable.ReplaceKeepsOthers | src/app/admin/users/UserTable.tsx:68 | replacing keeps ids and order, updates exactly the rows with the returned id, and changes nothing for an unknown id |
| UserTable.ReplaceKeepsUniqueIds | src/app/admin/users/UserTable.tsx:68 | replacing keeps ids unique |
| UserTable.RemoveById | src/app/admin/users/UserTable.tsx:82 | keeps exactly the rows with a different id |
| UserTable.RemoveAbsent | src/app/admin/users/UserTable.tsx:82 | removing an unlisted id changes nothing |
| UserTable.RemoveAppend | src/app/admin/users/UserTable.tsx:82 | removal works row by row and keeps order |
| UserTable.RemoveOne | src/app/admin/users/UserTable.tsx:82 | with unique ids, removing a listed id drops exactly one row |
| UserTable.RemoveUnique | src/app/admin/users/UserTable.tsx:82 | removing keeps ids unique |
| UserTable.Toggled | src/app/admin/users/UserTable.tsx:91-95 | the email is in the new set exactly when the reply says subscribed; other emails keep their state |
| UserTable.ForceOffered | src/app/admin/users/UserTable.tsx:183 | the force-password button is shown only for users not already flagged |
| UserTable.ForceRequestChangesOnlyFlag | src/app/admin/users/UserTable.tsx:100-105 | the force-password request addresses the user it is shown for, sends no password, and applied by the `users/[id]` endpoint changes that user only by setting the flag |
| UserTable.EditRequestMerge | src/app/admin/users/UserTable.tsx:58-64 | an edit always sends the form's flag, so saving can also clear it; each of username, email and role is replaced when the form's value is non-empty and kept when it is blank; id and creation time never change |
| UserTable.Table.OpenAdd | src/app/admin/users/UserTable.tsx:31 | the form is reset to empty fields with role "user" and flag false, the error cleared |
| UserTable.Table.OpenEdit | src/app/admin/users/UserTable.tsx:32-36 | the form holds the user's fields with an empty password |
| UserTable.Table.CloseModals | src/app/admin/users/UserTable.tsx:37 | add, edit and delete state and the error are cleared |
| UserTable.Table.OpenDelete | src/app/admin/users/UserTable.tsx:206 | the chosen user awaits deletion; nothing else changes |
| UserTable.Table.EditForm | src/app/admin/users/UserTable.tsx:246-267 | a field edit replaces the form; nothing else changes |
| UserTable.Table.BeginSaveAdd | src/app/admin/users/UserTable.tsx:39-45 | saving starts, the error is cleared and the form is the body posted |
| UserTable.Table.FinishSaveAdd | src/app/admin/users/UserTable.tsx:46-54 | success appends the returned user and closes; failure keeps the list and shows the error or "Failed to create user." |
| UserTable.Table.BeginSaveEdit | src/app/admin/users/UserTable.tsx:58-64 | nothing without an edited user; otherwise saving, error cleared, the form sent for that id |
| UserTable.Table.FinishSaveEdit | src/app/admin/users/UserTable.tsx:65-73 | success replaces the row with the returned id and closes; failure shows the error or "Failed to update user." |
| UserTable.Table.BeginDelete | src/app/admin/users/UserTable.tsx:77-79 | nothing without a chosen user; otherwise saving and that id requested |
| UserTable.Table.FinishDelete | src/app/admin/users/UserTable.tsx:80-84 | success removes that id and closes; failure keeps everything and the dialog open |
| UserTable.Table.ToggleNewsletter | src/app/admin/users/UserTable.tsx:87-98 | an ok reply toggles the set as it says; a failure changes nothing |
| UserTable.Table.FinishForcePassword | src/app/admin/users/UserTable.tsx:106-109 | an ok reply replaces the row with the returned id |
| Email.ValidEmailIffPattern | src/app/api/newsletter/subscribe/route.ts:6 | the hand-written check accepts exactly the strings the pattern matches |
| Email.ValidEmailShape | src/app/api/checkout/route.ts:12 | an accepted address has a non-empty local part, a single '@', no white space, and a '.' strictly inside the domain |
| Text.TrimEmptyIffBlank | src/components/Newsletter.tsx:15 | `trim()` is empty exactly for white space only |
| Text.NatToString | src/app/admin/newsletter/NewsletterCompose.tsx:34 | the count prints as a non-empty string of digits |
| Text.NatToStringRoundTrip | src/app/admin/newsletter/NewsletterCompose.tsx:34 | the printed count reads back as the number |

## Left out

- Floating point and `toFixed(2)`: prices and sums are integer cents, so JavaScript's double rounding is not modelled.
- Shop.Order: `localeCompare` is replaced by code-point lexicographic order on names, so locale collation is not modelled.
- Sorting.SortBy: it is an insertion sort proved ordered and a permutation. It is stable, like `Array.prototype.sort`, but stability is not proved.
- Catalog: the descriptive product fields (descriptions, colours, tags) are omitted. `getRelatedProducts`' default `count = 3` is not modelled; callers pass a count.
- Async, `fetch`, `Promise.all`, React rendering and hooks: each awaited request is modelled as a method pair, with the reply as a parameter.
- Token signing and verification (src/lib/auth.ts), bcrypt hashing and comparison, and the mailer (src/lib/email.ts) are function parameters. src/lib/auth.ts and src/lib/email.ts are not part of this model.
- SendRoute.SendOutcomes: the mailer is a function that returns a result, so only a returned `ok: false` is modelled. The real `sendEmail` (src/lib/email.ts:33-60) never returns `ok: false`; a transport failure throws from `sendMail`, the route does not catch it, and the framework answers with a generic 500. That thrown path is not modelled.
- Database-generated ids: a counter hands out `nat` ids. Creation timestamps come from a `now` parameter.
- Db.Database: the database's unique indexes, transactions and the race between the clash check and the insert are not modelled; uniqueness is proved as a property of the route functions instead.
- Seed.SeedKeepsUniqueLogins: it requires that the admin email is unused. The script checks only the username, and an existing row with that email would make the real insert fail.
- JSON bodies: fields are optional strings; non-string values sent in their place, such as numbers, are not modelled. `forcePasswordChange` is an optional boolean. In the send route, a file placed under the subject or message name reads as null. A malformed body that makes `request.json()` throw, and the uncaught 500 that follows, is not modelled.
- The Next.js `matcher` configuration (src/middleware.ts:29-31) and routing are not modelled; the guard decides on the path it is given.
- The logout route, the `users/[id]` PUT and DELETE routes and the per-user newsletter toggle route are not modelled as endpoints; the user table's handlers take their replies as parameters. Only the PUT route's rule for merging a body into the stored row (src/app/api/admin/users/[id]/route.ts:11-16) is written out, as `UserTable.Merged`, to say what the table's two PUT bodies change; its 404 and the password hashing are left out.
- The checkout page's own "Total", the "99+" badge and other presentation files are not modelled; scripts/prisma-setup.js is not part of this model.
