# A verified model of the shop backend's core rules

This project models, in Dafny, the self-contained logic of a FastAPI and
SQLAlchemy shop and content backend:

- the authentication primitives: the password complexity rules, the claims of
  access tokens, token verification and the revocation set;
- registration, update and deletion of users;
- the admin IP allow-list over IPv4 addresses and CIDR networks;
- the comma-separated list settings;
- the shopping-cart rules;
- the 404-before-403 guard chains of the payment, review and article
  endpoints;
- the menu tree of the CMS;
- the product and article creation helpers.

Tables are sequences of rows in insertion order, so that a query's `.first()`
means the first matching row in table order; every table has a counter above
all ids in use for the next id. Objects the source updates in place (the token
blacklist, the IP filter, the user, cart, review and payment tables, the
catalogue) are classes whose methods state their whole new state; guard chains,
lookups and the menu tree are functions. Collaborators with no source here are
parameters: bcrypt hashing is a function `hash`, JSON Web Token signing and
checking (RFC 7519, HS256) are functions `encode` and `decode`, the random
strings of `secrets.token_urlsafe` are values, the current time is an integer
count of seconds, and the result of the `get_current_superuser` dependency is
an `Outcome`. An exception is a value of `Common.Error`: an HTTP error with its
status and detail, a `ValueError`, the two token errors, an `AttributeError`
for a call of a name that does not exist, an `IntegrityError` for a unique,
primary-key or NOT NULL constraint refused at commit, a `TypeError` for a None
passed to the password hash, and a request validation error for a query
parameter FastAPI refuses.

Files: `common.dfy` (options, results, errors, table helpers), `strings.dfy`
(Python's `split`, `join`, `strip`), `config.dfy`, `security.dfy`, `ipv4.dfy`
(the IPv4 part of Python's `ipaddress`), `ip_filter.dfy`, `crud_user.dfy`,
`catalog.dfy` (products, articles, categories and tags), `carts.dfy`,
`payments.dfy`, `reviews.dfy`, `articles.dfy`, `cms.dfy`.

## Model

| member | source | states |
|---|---|---|
| Security.ValidatePasswordComplexity | app/core/security.py:43-55 | accepted (True) exactly when the password has at least 8 characters, an ASCII upper-case letter, a lower-case letter, a digit and one of the punctuation characters of the special-character class; otherwise the ValueError of a rule it breaks, and a password under 8 characters always gets the length message |
| Security.ValidateReportsFirstBrokenRule | app/core/security.py:45-54 | the message raised is that of the first rule broken in the order length, upper case, lower case, digit, special character |
| Security.ShortPasswordExample | app/core/security.py:45-46 | "short1!" fails on length although it also lacks an upper-case letter |
| Security.NoUppercaseExample | app/core/security.py:47-48 | "longenough1" fails on the upper-case rule |
| Security.StrongPasswordExample | app/core/security.py:55 | "LongEnough1!" passes |
| Security.Lifetime | app/core/security.py:35-38 | a missing or zero delta falls back to ACCESS_TOKEN_EXPIRE_MINUTES; any other delta, negative ones too, is used as given |
| Security.AccessClaims | app/core/security.py:34-39 | the payload has the keys of the data plus `exp`, `exp` is now plus the lifetime, and every other key keeps its value |
| Security.CreateAccessToken | app/core/security.py:32-41 | the token is the encoding of exactly that payload |
| Security.TokenClaims | app/core/security.py:77-80 | the access payload is the user data with `jti` set to the fresh draw, replacing any `jti` already there, and `exp` the default lifetime ahead |
| Security.CreateTokens | app/core/security.py:74-83 | the access token encodes that payload; the refresh token is the second random draw |
| Security.TokensAreIndependent | app/core/security.py:74-83 | the access token does not depend on the refresh draw, and the refresh token does not depend on the user data |
| Security.VerifyToken | app/core/security.py:85-93 | an undecodable token is "Invalid token"; a decoded one whose `jti` is revoked is "Token has been revoked" (not turned into the other error); otherwise the payload, and only in that case |
| Security.UndecodableNeverConsultsRevocations | app/core/security.py:87-89 | an undecodable token has the same outcome whatever the revocation set holds |
| Security.MissingJtiIsEmptyString | app/core/security.py:89 | a payload without `jti` is accepted exactly when "" is not revoked |
| Security.RevocationIsMonotone | app/core/security.py:89-90 | revoking more ids never lets through a token that was rejected |
| Security.FreshTokenVerifies | app/core/security.py:74-91 | given a codec that decodes what it signed until `exp`, a fresh access token verifies to exactly its payload, or is reported revoked when its `jti` is |
| Security.TokenExpiresAfterLifetime | app/core/security.py:77-93 | a fresh access token is still decodable at the end of its lifetime and "Invalid token" one second later |
| Security.TokenBlacklist.constructor | app/core/security.py:58-59 | the blacklist starts empty |
| Security.TokenBlacklist.AddToBlacklist | app/core/security.py:61-62 | the id is added, nothing is removed, and the expiry is ignored |
| Security.TokenBlacklist.IsBlacklisted | app/core/security.py:64-65 | true exactly when the id is in the set |
| Security.RevocationIsPermanent | app/core/security.py:57-65 | after any series of adds the set is the old set plus the ids added: adds are idempotent and an id once revoked stays revoked |
| Security.RevokeExample | app/core/security.py:61-90 | a token that verified before its id is added is reported revoked afterwards |
| Config.AllowedOriginsList | app/core/config.py:37-39 | no entry is empty and every entry equals its own strip |
| Config.AllowedHostsList | app/core/config.py:41-43 | no entry is empty and every entry equals its own strip |
| Config.AdminAllowedIps | app/core/config.py:45-47 | no entry is empty and every entry equals its own strip |
| Config.CleanItemsAreClean | app/core/config.py:39 | the comprehension keeps only non-empty stripped pieces |
| Config.CommaListIsClean | app/core/config.py:39 | split, strip and filter never yield an empty or unstripped entry |
| Config.CleanItemsLength | app/core/config.py:39 | filtering never adds pieces |
| Config.CommaListLength | app/core/config.py:39 | at most one entry more than there are commas |
| Config.CleanItemsOfClean | app/core/config.py:39 | pieces that are already clean pass through unchanged and in order |
| Config.CommaListRoundTrip | app/core/config.py:37-39 | when every segment is non-empty and stripped, the list is the segments in source order and joining it with "," gives back the setting |
| Config.CommaListOfJoin | app/core/config.py:39 | the list of a join of clean comma-free entries is those entries |
| Config.DefaultAdminIpsEmpty | app/core/config.py:30-47 | the default empty admin IP setting gives the empty list |
| Config.JoinOrigins | app/core/config.py:28 | the default origins setting is the join of its three URLs |
| Config.JoinHosts | app/core/config.py:29 | the default hosts setting is the join of its five host names |
| Config.DefaultOrigins | app/core/config.py:28-39 | the default origins give exactly the three URLs, in order |
| Config.DefaultHosts | app/core/config.py:29-43 | the default hosts give exactly the five host names, in order |
| Strings.SplitCount | app/core/config.py:39 | `split(",")` gives one piece more than there are commas |
| Strings.JoinSplit | app/core/config.py:39 | joining the pieces of a split gives back the string |
| Strings.SplitJoin | app/core/config.py:39 | splitting a join of separator-free pieces gives back the pieces |
| Strings.StripIdempotent | app/core/config.py:39 | stripping twice is stripping once |
| IPv4.ParseOctet | app/core/ip_filter.py:24 | an accepted octet is below 256 |
| IPv4.ParseOctetCanonical | app/core/ip_filter.py:24 | an accepted octet is written without leading zeros, as its own decimal |
| IPv4.ParseFormatAddress | app/core/ip_filter.py:37 | printing an address and reading it back gives the address |
| IPv4.FormatParseAddress | app/core/ip_filter.py:24-25 | an address the parser accepts is already in printed form |
| IPv4.Masked | app/core/ip_filter.py:20 | clearing host bits never raises the address |
| IPv4.MaskedIdempotent | app/core/ip_filter.py:20 | clearing host bits twice is clearing them once |
| IPv4.PrefixOfNetmask | app/core/ip_filter.py:20 | a netmask is accepted only as the mask of the prefix length it gives |
| IPv4.ParsePrefix | app/core/ip_filter.py:20 | an accepted prefix length is at most 32 |
| IPv4.ParseNetwork | app/core/ip_filter.py:20 | a non-strict network read always has its host bits cleared |
| IPv4.ParseFormatNetwork | app/core/ip_filter.py:20-21 | reading a printed network gives the network back |
| IPv4.NetworkContainsItsAddress | app/core/ip_filter.py:43-44 | a network contains its own network address |
| IPv4.NormalisationExample | app/core/ip_filter.py:19-21 | "10.0.0.5/24" is read as the network 10.0.0.0/24 |
| IPv4.NormalisedFormExample | app/core/ip_filter.py:21 | and is stored as "10.0.0.0/24" |
| IpFilter.StoredEntryIsStored | app/core/ip_filter.py:15-25 | an entry as `add_ip` stores it is stored again unchanged |
| IpFilter.StoredEntriesAreStored | app/core/ip_filter.py:9-13 | every entry a list leaves in the set is in stored form |
| IpFilter.IPFilter.Empty | app/core/ip_filter.py:10 | a new filter starts with the empty set |
| IpFilter.IPFilter.AddIp | app/core/ip_filter.py:15-27 | a network is stored printed with host bits cleared and an address as given; an invalid entry raises "Invalid IP address or CIDR range: " and the entry, and leaves the set unchanged |
| IpFilter.IPFilter.AddAll | app/core/ip_filter.py:11-13 | succeeds exactly when every entry is valid and then adds their stored forms; otherwise fails with the error of the first invalid entry |
| IpFilter.IPFilter.New | app/core/ip_filter.py:8-13 | a fresh filter holding exactly the stored forms of the list, or the error of its first invalid entry |
| IpFilter.IPFilter.FromSettings | app/core/ip_filter.py:50 | the module's filter is built from the admin IP setting's list: it succeeds exactly when every entry is valid, holding their stored forms, and otherwise fails with the first invalid entry's error |
| IpFilter.IPFilter.IsAllowed | app/core/ip_filter.py:29-48 | everything when the set is empty; otherwise the address must parse and its printed form be in the set or lie in a stored network |
| IpFilter.AllowsCharacterization | app/core/ip_filter.py:34-48 | with a non-empty set an address is let in exactly when it parses and some stored entry is that address or a network containing it |
| IpFilter.AddedAddressAllowed | app/core/ip_filter.py:24-38 | after adding a valid single address, that address is let in |
| IpFilter.AddedNetworkAllowed | app/core/ip_filter.py:19-45 | after adding a network, every address it contains is let in |
| IpFilter.AllowsMonotone | app/core/ip_filter.py:36-46 | adding entries to a non-empty list never shuts out an address that was let in |
| IpFilter.FirstEntryRestricts | app/core/ip_filter.py:31-35 | the empty list lets in even "not-an-ip"; a one-entry list does not |
| IpFilter.IPFilter.VerifyAdminIp | app/core/ip_filter.py:53-56 | passes exactly when the client host is allowed; otherwise 403 "Access denied: Your IP is not whitelisted for admin access." |
| CrudUser.UserCreateWithDefaults | app/schemas/user.py:13-16 | a request with only e-mail and password has no name, is not a superuser, has role "user" and is active |
| CrudUser.UserByEmail | app/crud/crud_user.py:12-14 | the first row, in table order, whose e-mail is exactly equal to the argument; None exactly when there is none |
| CrudUser.AppendKeepsEmailsDistinct | app/crud/crud_user.py:27-28 | appending a row whose e-mail is not registered keeps e-mails pairwise distinct |
| CrudUser.UserTable.constructor | app/crud/crud_user.py:24 | the table starts empty |
| CrudUser.UserTable.CreateUser | app/crud/crud_user.py:24-48 | a registered e-mail is "Email already registered" and changes nothing; a weak password is "Error creatinguser: " and the rule's message and adds nothing; otherwise exactly one row is added with the given e-mail, name, flags and role and `hash(password)` as its hash; e-mails stay distinct |
| CrudUser.UserTable.ApplyUserData | app/crud/crud_user.py:57-58 | the `setattr` loop gives the dumped fields applied in order |
| CrudUser.UserDataApplies | app/crud/crud_user.py:52-58 | applying the dumped fields one after another is the field-wise update |
| CrudUser.UpdateChangesOnlyGivenFields | app/crud/crud_user.py:52-58 | only the given fields change; the id, `hashed_password` and the refresh token never do; a non-null password sets `hashes_password` to its hash |
| CrudUser.EmptyUpdateIsIdentity | app/crud/crud_user.py:52-58 | an update with nothing but the same e-mail leaves the row as it is |
| CrudUser.UserTable.UpdateUser | app/crud/crud_user.py:50-62 | a null password is a TypeError from the hash before any change; otherwise an e-mail taken by another row is an IntegrityError that leaves the table unchanged; otherwise the field-wise update is returned and stored without `hashes_password`, which is not a column |
| CrudUser.UserTable.DeleteUser | app/crud/crud_user.py:64-71 | the row with that id is removed and the others keep their order, or "User not found" and the table is unchanged |
| CrudUser.DeleteRemovesTheId | app/crud/crud_user.py:66-69 | with distinct ids, after the delete no row has the id and the table is one row shorter |
| CrudUser.RegisterTwice | app/crud/crud_user.py:27-45 | registering the same e-mail twice succeeds once, with the hashed password, and then fails with "Email already registered" |
| Catalog.TermById | app/crud/crud_product.py:34 | the category or tag with that id, None exactly when there is none |
| Catalog.ProductById | app/crud/crud_product.py:15 | the product with that id, None exactly when there is none |
| Catalog.ProductBySlug | app/crud/crud_product.py:17 | the product with that slug, None exactly when there is none |
| Catalog.GetProduct | app/crud/crud_product.py:9-18 | as written: an id gives the product with that id; a slug alone raises `AttributeError` for `frist`; neither gives None |
| Catalog.GetProductIntended | app/crud/crud_product.py:13-18 | with `.first()` on the slug branch: by id when an id is given, else by slug, else None, each found exactly when such a row exists |
| Catalog.IdTakesPrecedence | app/crud/crud_product.py:14-15 | a given id decides the lookup whatever slug comes with it |
| Catalog.NoKeyGivesNone | app/crud/crud_product.py:18 | neither id nor slug gives None |
| Catalog.SlugLookupAlwaysRaises | app/crud/crud_product.py:16-17 | a lookup by the slug of an existing product raises, where the intended lookup finds it |
| Catalog.GetProductAgreesById | app/crud/crud_product.py:14-15 | on the id branch the written and intended lookups agree |
| Common.Window | app/crud/crud_product.py:20-22 | `offset(skip).limit(limit)`: the rows at positions skip, skip + 1, ..., at most `limit` of them and all of them that exist |
| Catalog.GetProducts | app/crud/crud_product.py:20-22 | at most `limit` products, the k-th being row skip + k, and exactly `limit` when that many rows follow `skip` |
| Catalog.GetArticle | app/crud/crud_article.py:10-11 | the first article whose slug is exactly equal, None exactly when there is none |
| Catalog.GetArticles | app/crud/crud_article.py:14-15 | at most `limit` articles, the k-th being row skip + k, and exactly `limit` when that many rows follow `skip` |
| Catalog.ExistingIsSound | app/crud/crud_product.py:33-41 | the attached rows are rows of the table whose ids were asked for, and there are no more of them than ids |
| Catalog.ExistingIsComplete | app/crud/crud_product.py:33-41 | when every id names a row, the attached rows follow the ids one for one |
| Catalog.ExistingOfConcat | app/crud/crud_product.py:33-41 | attaching a concatenation of ids attaches each part in order |
| Catalog.ExistingSkipsUnknown | app/crud/crud_product.py:35 | an id with no row is skipped silently |
| Catalog.DistinctIdsAttachOnce | app/crud/crud_product.py:33-41 | a request whose ids are distinct never attaches a row twice, so the association tables' keys never refuse it |
| Catalog.RepeatedIdAttachesTwice | app/crud/crud_product.py:33-36 | an id of an existing row given twice appends that row twice, which the commit then refuses |
| Catalog.Catalog.constructor | app/crud/crud_product.py:25 | an empty catalogue over given category and tag tables |
| Catalog.Catalog.Attach | app/crud/crud_product.py:33-41 | the attach loop appends, for each id in order, the row with that id when it exists |
| Catalog.Catalog.CreateProduct | app/crud/crud_product.py:25-46 | an IntegrityError for a taken slug, then for a category and then a tag attached twice (the association tables' composite keys), each changing nothing; otherwise a new product with the request's columns (the id lists removed) and the existing categories and tags among the ids; the article counter never moves |
| Catalog.Catalog.CreateArticle | app/crud/crud_article.py:18-38 | as for products, over `article_categories` and `article_tags`, with `author_id` set to the user id argument; the article counter moves only on success and the product counter never |
| Catalog.Catalog.UpdateArticle | app/crud/crud_article.py:41-42 | changes nothing and returns None |
| Catalog.AppendKeepsSlugsDistinct | app/crud/crud_product.py:43-44 | a product with a fresh slug keeps product slugs distinct |
| Catalog.AppendKeepsArticleSlugsDistinct | app/crud/crud_article.py:35-36 | an article with a fresh slug keeps article slugs distinct |
| Carts.CartOfUser | app/crud/crud_cart.py:9-10 | the first cart of the user in table order, None exactly when the user has none |
| Carts.CreatedCartIsFound | app/crud/crud_cart.py:9-17 | a cart just created for a user who had none is the one found next |
| Carts.ItemIndex | app/crud/crud_cart.py:19-20 | the position of the item with that id, None exactly when there is none |
| Carts.CartStore.constructor | app/crud/crud_cart.py:12 | the store starts with no carts and no items |
| Carts.CartStore.CreateCart | app/crud/crud_cart.py:12-17 | exactly one cart is added, carrying the user id; items are untouched |
| Carts.CartStore.CreateCartItem | app/crud/crud_cart.py:22-27 | exactly one item is added, with `cart_id` set to the argument |
| Carts.CartStore.UpdateCartItem | app/crud/crud_cart.py:29-35 | a null `product_id` is an IntegrityError at the commit (the column is NOT NULL) and changes nothing; otherwise only the given fields of that item change; no other item and no cart changes |
| Carts.CartStore.DeleteCartItem | app/crud/crud_cart.py:37-39 | exactly that item goes; the others keep their order |
| Carts.UpdateCanDuplicateProduct | app/crud/crud_cart.py:29-35 | an update can move an item onto a product its cart already holds |
| Carts.CartStore.ReadMyCart | app/api/v1/endpoints/carts.py:13-19 | the user's cart, created only when there is none (the cart counter then goes up by one); afterwards it is the user's cart |
| Carts.ReadMyCartTwice | app/api/v1/endpoints/carts.py:13-19 | two reads give the same cart and create at most one |
| Carts.CartStore.FindLine | app/api/v1/endpoints/carts.py:38-39 | the loop finds the first item of the cart for the product |
| Carts.CartStore.AddItemToCart | app/api/v1/endpoints/carts.py:22-43 | gets or creates the cart, kept even when the product is missing and the answer is 404 "Product not found"; then merges into the first item for the product or appends one; each counter goes up by one exactly when a cart or an item is created |
| Carts.MergeAddsQuantity | app/api/v1/endpoints/carts.py:38-43 | adding raises the product's total in that cart by exactly the added quantity and leaves every other total alone |
| Carts.MergeIntoExistingLine | app/api/v1/endpoints/carts.py:38-41 | a product already in the cart gets its first item's quantity increased and no item is added |
| Carts.MergeAppendsNewLine | app/api/v1/endpoints/carts.py:43 | a product not in the cart gets exactly one new item of that cart |
| Carts.MergeKeepsOneLinePerProduct | app/api/v1/endpoints/carts.py:38-43 | at most one item per product in each cart before an add means the same after it |
| Carts.ItemAccessIff | app/api/v1/endpoints/carts.py:53-59 | the chain lets an item through exactly when the user has a cart and the item exists and lies in it; every refusal is a 404 |
| Carts.CartStore.UpdateCartItemQuantity | app/api/v1/endpoints/carts.py:46-65 | 404 "Cart not found" or "Cart item not found" and no change; a missing or non-positive quantity removes the item; otherwise a null `product_id` is an IntegrityError with no change, and any other update changes only the given fields; no cart is ever created |
| Carts.CartStore.DeleteItemFromCart | app/api/v1/endpoints/carts.py:68-83 | the same 404 chain with no change, otherwise exactly that item goes; no cart is ever created |
| Payments.PaymentIndex | app/crud/crud_payment.py:7-8 | the position of the payment with that id, None exactly when there is none |
| Payments.InvoiceOf | app/api/v1/endpoints/payments.py:45 | the invoice the payment points at, None exactly when it does not exist |
| Payments.AccessIff | app/api/v1/endpoints/payments.py:36-50 | access exactly when the payment exists, the caller is a superuser, and there is no invoice or it is the caller's |
| Payments.MissingPaymentIsNotFound | app/api/v1/endpoints/payments.py:36-38 | a missing payment is 404 whoever asks |
| Payments.NonSuperuserIsRefused | app/api/v1/endpoints/payments.py:40-44 | a caller who is not a superuser gets 403 for every existing payment, even on their own invoice |
| Payments.OtherUsersInvoiceIsRefused | app/api/v1/endpoints/payments.py:45-49 | a payment whose invoice is another user's is 403 |
| Payments.ReadPayment | app/api/v1/endpoints/payments.py:30-50 | the guard's error, or the payment with that id exactly when the guard passes |
| Payments.PaymentsOfInvoice | app/crud/crud_payment.py:10-11 | exactly the payments of the invoice |
| Payments.ReadPaymentsForInvoice | app/api/v1/endpoints/payments.py:19-28 | the window of the invoice's payments, with no caller check |
| Payments.ListingShowsEveryPayment | app/api/v1/endpoints/payments.py:19-28 | a wide enough window lists every payment of the invoice, whoever owns the invoice |
| Payments.PatchKeepsId | app/crud/crud_payment.py:20-22 | an update keeps the id, an update that sets nothing changes nothing, an invoice id left out is kept and a given one replaces it |
| Payments.PaymentStore.constructor | app/crud/crud_payment.py:13 | no payments over a given invoice table |
| Payments.PaymentStore.CreatePayment | app/api/v1/endpoints/payments.py:11-17 | exactly one new payment with the request's fields, with no ownership check |
| Payments.PaymentStore.UpdatePayment | app/api/v1/endpoints/payments.py:53-74 | after the same guard, a null `invoice_id` is an IntegrityError at the commit (the column is NOT NULL) and changes nothing; otherwise only the given fields of that payment change; a refusal changes nothing |
| Payments.PaymentStore.DeletePayment | app/api/v1/endpoints/payments.py:76-97 | after the same guard, exactly that payment goes; a refusal changes nothing |
| Reviews.ReviewIndex | app/crud/crud_review.py:7-8 | the position of the review with that id, None exactly when there is none |
| Reviews.CreateGuardIff | app/api/v1/endpoints/reviews.py:17-27 | creation is allowed exactly when the product exists and the caller is a superuser or the review's user; a missing product is 404 before the permission rule |
| Reviews.ReviewStore.constructor | app/crud/crud_review.py:13 | the table starts empty |
| Reviews.ReviewStore.CreateReview | app/api/v1/endpoints/reviews.py:11-29 | the guard's error with no change, or exactly one new review with the request's fields |
| Reviews.ReadReview | app/api/v1/endpoints/reviews.py:38-43 | with no caller: the review with that id, or 404 exactly when there is none |
| Reviews.ReviewsOfProduct | app/crud/crud_review.py:10-11 | exactly the reviews of the product |
| Reviews.ReadReviewsForProduct | app/api/v1/endpoints/reviews.py:32-35 | with no caller: the window of the product's reviews |
| Reviews.OwnerGuardIff | app/api/v1/endpoints/reviews.py:71-79 | the guard lets in exactly a superuser or the author of an existing review; a missing review is 404 before any permission check |
| Reviews.StrangerIsRefused | app/api/v1/endpoints/reviews.py:75-79 | with distinct ids, a non-superuser who is not the author gets 403 |
| Reviews.ReviewStore.UpdateReview | app/api/v1/endpoints/reviews.py:45-62 | as written: every update fails on the missing `get_review` and nothing changes |
| Reviews.IntendedUpdate | app/api/v1/endpoints/reviews.py:52-62 | with `get_reviews`: the patched review, keeping its id, exactly when the owner guard passes and neither `product_id` nor `user_id` is null; the guard's error first, then an IntegrityError naming the first nulled NOT NULL column |
| Reviews.AuthorCouldUpdate | app/api/v1/endpoints/reviews.py:52-62 | the author of an existing review is let through by the intended update, which then fails only on a nulled NOT NULL column |
| Reviews.ReviewStore.UpdateReviewIntended | app/api/v1/endpoints/reviews.py:52-62 | the intended update; the table changes only at that review, and only when the guard passes and the commit accepts the update |
| Reviews.ReviewStore.DeleteReview | app/api/v1/endpoints/reviews.py:65-82 | the guard's error with no change, or exactly that review goes |
| Articles.CreateArticle | app/api/v1/endpoints/articles.py:15-24 | a taken slug is 400 "Article with this slug already exixts" and changes nothing, the counter included; a category or tag attached twice is the store's IntegrityError with no change; otherwise one new article whose author is the caller, and the counter goes up by one |
| Articles.ReadArticles | app/api/v1/endpoints/articles.py:27-45 | refused unless skip >= 0 and 1 <= limit <= 100; otherwise at most `limit` articles, the k-th being row skip + k |
| Articles.FiltersAreIgnored | app/api/v1/endpoints/articles.py:31-44 | the search, status, type, category, featured and sort parameters change nothing |
| Articles.DefaultPageListsEverything | app/api/v1/endpoints/articles.py:29-45 | with the default paging a table of at most 100 articles is listed whole, drafts included |
| Articles.UpdateGuardIff | app/api/v1/endpoints/articles.py:54-60 | the update is let in exactly for a superuser or the author of the article the slug names; an unknown slug is 404 |
| Articles.UpdateArticle | app/api/v1/endpoints/articles.py:47-62 | the guard's error, or the store's update, which answers None |
| Articles.DeleteArticle | app/api/v1/endpoints/articles.py:65-70 | as written: the superuser dependency's error, 404 for an unknown slug, and otherwise the `AttributeError` of the missing `delete_article`; it never succeeds |
| Articles.SlugIndex | app/crud/crud_article.py:10-11 | the position of the article `get_article` finds |
| Articles.RemoveKeepsOthers | app/api/v1/endpoints/articles.py:67-70 | with distinct slugs, removing the slug's article removes the slug and keeps every other article |
| Articles.DeleteArticleIntended | app/api/v1/endpoints/articles.py:65-70 | with the removal evidently meant: after the guards exactly the article at the slug's position goes, so no article has the slug and every other article stays; no other table or counter changes |
| Cms.MenuBySlug | app/api/v1/endpoints/cms.py:18-20 | a menu with that location slug, None exactly when there is none |
| Cms.ReadMenu | app/api/v1/endpoints/cms.py:15-40 | 404 "Menu not found" exactly for an unknown slug; otherwise the menu's name over one tree per item of the menu |
| Cms.MenuTopLevel | app/api/v1/endpoints/cms.py:21-26 | the top level is the trees of exactly the menu's items, parents or not, in `order` order |
| Cms.TopItems | app/api/v1/endpoints/cms.py:21-26 | exactly the menu's items, sorted by `order` |
| Cms.Children | app/api/v1/endpoints/cms.py:29-34 | exactly the rows whose parent is the given id, sorted by `order` |
| Cms.SortByOrder | app/api/v1/endpoints/cms.py:24 | sorted by `order` and a permutation of its input |
| Cms.InsertSorted | app/api/v1/endpoints/cms.py:24 | inserting into a sorted list keeps it sorted |
| Cms.InsertAddsOne | app/api/v1/endpoints/cms.py:24 | inserting adds exactly that row |
| Cms.ItemsOfMenu | app/api/v1/endpoints/cms.py:23 | exactly the rows of the menu |
| Cms.ItemsWithParent | app/api/v1/endpoints/cms.py:31 | exactly the rows with that parent, over the whole table |
| Cms.BuildTree | app/api/v1/endpoints/cms.py:35-37 | a node carries its item's title and url |
| Cms.ChildrenOfNode | app/api/v1/endpoints/cms.py:28-39 | a node's children are the trees of exactly its child rows, in `order` order |
| Cms.NestedItemAlsoAtTop | app/api/v1/endpoints/cms.py:21-38 | an item with a parent appears both at top level and under its parent |
| Cms.SelfParentIsUnranked | app/api/v1/endpoints/cms.py:28-39 | an item that is its own parent admits no rank, so no terminating tree exists |

## Left out

- IPv6 is not modelled: the IP filter reads only IPv4 dotted quads and prefix lengths 0 to 32.
- Floating-point columns are not modelled: product prices, payment amounts, review ratings as floats, and totals. Timestamps and `published_at` are left out too.
- E-mail validation and normalisation by `EmailStr` are left out; e-mails compare as exact strings.
- Whether SQLAlchemy constructors accept schema keys with no column (such as `tyoe` of the article schema) is library behaviour and is left out.
- SQLite may reuse the largest id after the top row is deleted. The model draws fresh ids from a counter that only grows.
- The module-level `token_blacklist` and `ip_filter` are shared by concurrent requests; the model is single-threaded.
- FastAPI dependency injection is left out. The authenticated user is a `Caller` value. The result of `get_current_superuser` is an `Outcome` parameter. The client host of `verify_admin_ip`, or "unknown" when there is no client, is a string parameter.
- bcrypt, the JWT library and `secrets.token_urlsafe` are parameters, not implementations, and time is an integer. `send_email` and the files whose bodies are not shown are not part of this model: authentication endpoints, dependencies, user endpoints, the application entry point and reset tokens. The thin delegations for categories, tags, tools and products, the database engine, the middleware and uploads are also outside it.
- `hashes_password` is not a column. The model's update returns the object with it set and stores the row without it, so a password update never changes the stored `hashed_password`. `update_user` runs no complexity check, and the model does not add one.
- CrudUser.UserTable.UpdateUser: an explicit null `is_active`, `is_superuser` or `roles` would write NULL into a nullable column; the user record holds no NULL there, so these fields are only left out or given a value. The null password, whose hash raises a TypeError, is modelled.
- CrudUser.UserTable.UpdateUser: the `db_user` argument is modelled as the id of an existing row, so a detached or unknown object is not modelled.
- Cms.SortByOrder: `order_by` does not fix the order of rows with equal `order`; the model takes table order for ties (a stable sort).
- Cms.ReadMenu: the acyclicity of the parent links is a precondition (a rank that falls from parent to child over the whole table), because `build_tree` does not terminate without it. Its own contract states the name and the number of top-level trees; the trees themselves are stated by Cms.MenuTopLevel and Cms.ChildrenOfNode.
- Articles.ReadArticles: when both `skip` and `limit` are out of range FastAPI reports both; the model reports only `skip`.
- Carts.CartStore.UpdateCartItem: an explicit null `quantity` would write NULL into the nullable `quantity` column; the item's quantity is a number, so the update's quantity is only left out or given. Its callers never pass a null: `add_item_to_cart` passes a sum, and `update_cart_item_quantity` removes the line when the quantity is None.
- Carts.CartStore.UpdateCartItemQuantity: an explicit null quantity is written as a left-out one, because `is None` treats the two alike. After the removal the handler returns a message dict to a route whose response model is `CartItem`; that reply fails validation at the HTTP layer, which is not modelled.
- Reviews.ReviewStore.UpdateReviewIntended: an explicit null `rating` would write NULL into the nullable `rating` column; the review's rating is a number, so the update's rating is only left out or given.
- Security.SoundCodec: the codec law says a signed token decodes to its claims until `exp`. python-jose also rejects an `aud` claim when no audience is given, a `sub` or `jti` that is not a string, an `exp`, `iat` or `nbf` that is not an integer, and an `nbf` in the future; those rejections are not modelled.
- Articles.UpdateArticle: the store's None is returned as is; serialising None against the article response model, which fails at the HTTP layer, is left out.
- Reviews.ReadReviewsForProduct: skip and limit are natural numbers; SQLite's reading of a negative offset or limit is not modelled. The same holds for Payments.ReadPaymentsForInvoice, Catalog.GetProducts and Catalog.GetArticles.
- Reviews.ReviewsOfProduct: the contract states membership in both directions, not that table order is kept; the same holds for Payments.PaymentsOfInvoice.
- Carts.CartStore.AddItemToCart: `cart.items` is taken in table order, and a NULL item quantity is not modelled.
- Catalog.Catalog.CreateProduct: when both the category ids and the tag ids repeat, the model names the category association table; which table the database reports first is not modelled. The same holds for Catalog.Catalog.CreateArticle.
- Catalog.Catalog.CreateProduct: a taken slug is refused at commit as an IntegrityError with nothing changed; the session's rollback state after the error is not modelled.
- Security.VerifyToken: a `jti` that is not a string is never in the set of revoked strings; Python's lookup of an unhashable value is not modelled.

## Findings

| source | as written | input that shows it | evidently intended | confidence | as-written member | corrected member |
|---|---|---|---|---|---|---|
| app/crud/crud_product.py:17 | the slug branch calls `.frist()`, which the query object does not have | `get_product(db, slug=s)` for the slug `s` of an existing product raises `AttributeError` | `.first()`, returning the product with that slug | high, not executed | Catalog.SlugLookupAlwaysRaises | Catalog.GetProductIntended |
| app/api/v1/endpoints/reviews.py:52 | `update_review` calls `crud_review.get_review`, which the module does not define | any PUT of an existing review by its author fails before any change | `crud_review.get_reviews`, the lookup read and delete use | high, not executed | Reviews.ReviewStore.UpdateReview | Reviews.ReviewStore.UpdateReviewIntended |
| app/api/v1/endpoints/articles.py:70 | `delete_article` calls `crud_article.delete_article`, which the module does not define | a superuser's DELETE of an existing slug fails and nothing is deleted | removing the article the slug names | high, not executed | Articles.DeleteArticle | Articles.DeleteArticleIntended |
