# NeoWasl storefront core in Dafny

NeoWasl is a storefront with an ASP.NET Core API and a React client that talks to it through RTK Query.
This project models the rules at its core and proves properties about them:

- **Server cart.** `Cart.AddProduct`, `Cart.RemoveProduct`, the line and cart totals, and the `ToCartDto` projection.
  The cart is a list of lines, and each mutator is a function from the old cart to the new one.
- **Catalog queries.** Sort selection with the `Id` tie-breaker, search, the brand/type CSV filter, the category and
  business-type scope, the composed listing endpoints, and the facet counts of `GET api/products/filters`.
- **Server data rules.** The page-parameter setters, product seeding (an upsert by name), role and demo-account seeding,
  registration, and the shipping-address upsert.
  ASP.NET Identity is a map from the normalised email to a user with its roles.
  Each Identity call that can fail is a boolean input.
- **Client mirrors.** The catalog filter slice, the paged-result merge, the cache key and the refetch rule.
  Also the optimistic cart patches and their undo, the infinite-scroll page counter, the filter bar, the cart page and
  checkout dialog, the product tile's stepper, the account and registration helpers, the login error text, and the
  shared error-handling query wrapper.
- **Small client helpers.** Navigation badge and title, the business-type switcher, the promo rotation and the
  featured-product data.

Each module follows one source file. `Wrappers`, `Text`, `Sorting`, `Queries` and `Json` are shared helpers.
- `Text` covers ASCII trimming, case, split, join, substring and number text.
- `Sorting` is an insertion sort by a total preorder.
- `Queries` covers order-preserving filters and subsequences.
- `Json` is a JavaScript value for error payloads.

Money is kept in whole cents, as the server stores it. Integers are unbounded.

## Model

| member | source | states |
|---|---|---|
| Carts.FindProductById | API/Entities/Cart.cs:64-67 | The index found holds the id and no earlier line does; there is none exactly when no line holds the id |
| Carts.AddProduct | API/Entities/Cart.cs:26-48 | A non-positive quantity is an error. A new id appends one line at the end. An existing id raises only that line by the quantity, and every other line is unchanged |
| Carts.RemoveProduct | API/Entities/Cart.cs:50-62 | An absent id leaves the cart as it was. A missing, non-positive or too large quantity deletes the line. Otherwise only that line is lowered by the quantity |
| Carts.BagKeys | API/Entities/Cart.cs:64-67 | The products counted in the cart's id-to-quantity map are exactly the products present |
| Carts.FindInValid | API/Entities/Cart.cs:64-67 | In a valid cart, the line that FindProductById finds carries the quantity recorded for its id |
| Carts.AddPreservesValid | API/Entities/Cart.cs:26-48 | AddProduct keeps product ids unique and every quantity at least 1 |
| Carts.RemovePreservesValid | API/Entities/Cart.cs:50-62 | RemoveProduct keeps product ids unique and every quantity at least 1 |
| Carts.AddMatchesBag | API/Entities/Cart.cs:26-48 | Seen as a bag of product quantities, adding raises the product's count by the quantity and touches no other product |
| Carts.RemoveMatchesBag | API/Entities/Cart.cs:50-62 | As a bag, removing deletes the product or lowers its count by the quantity, and touches no other product |
| Carts.AddThenRemoveRestores | API/Entities/Cart.cs:26-62 | Adding a positive quantity and then removing the same quantity gives back the original cart |
| Carts.TotalPriceStep | API/Entities/CartProduct.cs:22 | Raising a line's quantity by k raises its total by price times k |
| Carts.TotalPriceSign | API/Entities/CartProduct.cs:22 | A line total is non-negative for a non-negative price and quantity, and zero exactly when one of them is zero |
| Carts.TotalPrice | API/Entities/CartProduct.cs:22 | A line's total is its unit price times its quantity; see the two rows above for what follows |
| Carts.TotalAmount | API/Entities/Cart.cs:21 | The cart total is the sum of the line totals; its partners are the append, update and sign rows around it |
| Carts.TotalAmountAppend | API/Entities/Cart.cs:21 | The cart total of two runs of lines is the sum of their totals |
| Carts.TotalAmountUpdate | API/Entities/Cart.cs:21 | Replacing one line changes the cart total by the difference of the two line totals |
| Carts.TotalAmountNonNegative | API/Entities/Cart.cs:21 | Lines with non-negative prices and quantities have a non-negative cart total |
| Carts.AddRaisesTotal | API/Entities/Cart.cs:26-48 | With consistent prices, AddProduct raises the cart total by price times quantity |
| Carts.RemoveLowersTotal | API/Entities/Cart.cs:50-62 | RemoveProduct lowers the total by the price of exactly the units it removes: the whole line, or price times quantity |
| CartDtos.LineDtos | API/Extensions/CartExtensions.cs:16-26 | One DTO line per cart line, in order, whose totals sum to the cart's TotalAmount |
| CartDtos.ToCartDto | API/Extensions/CartExtensions.cs:8-28 | The ids are copied and the lines are kept in order with their product id, quantity and price. Each line total is price times quantity, and the DTO total is the sum of the line totals |
| Pagination.Default | API/RequestHelpers/PaginationParams.cs:7-16 | Page 1 with page size 8, which satisfies both bounds |
| Pagination.SetPageNumber | API/RequestHelpers/PaginationParams.cs:9-13 | Values below 1 are stored as 1, others as given; the page size is untouched |
| Pagination.SetPageSize | API/RequestHelpers/PaginationParams.cs:18-22 | Values above 50 are stored as 50, all others as given, zero and negatives included |
| Pagination.AssignAllValid | API/RequestHelpers/PaginationParams.cs:7-23 | From the defaults, any sequence of assignments keeps the page number at least 1 and the page size at most 50 |
| Pagination.ReassignIsIdentity | API/RequestHelpers/PaginationParams.cs:12-21 | Setting either property to its current value changes nothing |
| Pagination.SettersIdempotent | API/RequestHelpers/PaginationParams.cs:12-21 | Setting the same value twice is setting it once |
| CatalogQuery.SortKeyOf | API/Extensions/ProductExtension.cs:8-19 | Price order exactly for "price", descending price exactly for "priceDesc" (case-sensitive), and name order for a blank value or any other string |
| CatalogQuery.BlankIsNotWord | API/Extensions/ProductExtension.cs:10-11 | A blank order value is never one of the sort words, so the blank check and the switch agree |
| CatalogQuery.ListingOrderIsTotalPreorder | API/Controllers/ProductsController.cs:26-29 | The sort key followed by the id tie-breaker is a total preorder |
| CatalogQuery.Listing | API/Controllers/ProductsController.cs:26-29 | The listing is a permutation of its input in the key-then-id order |
| CatalogQuery.ListingOrderMeaning | API/Controllers/ProductsController.cs:26-29 | For each key, the listing ascends by name or price, or descends by price, and ties ascend by id |
| CatalogQuery.ListingIsDetermined | API/Controllers/ProductsController.cs:62-64 | With distinct ids, the listing is the only sorted arrangement of the products, so the order is total |
| CatalogQuery.Search | API/Extensions/ProductExtension.cs:21-29 | A blank term returns the input. Otherwise the result keeps, in order, exactly the products whose name contains the trimmed term |
| CatalogQuery.CsvValues | API/Extensions/ProductExtension.cs:39-49 | A blank list gives no values, and every value is non-empty, trimmed, lower case and comma-free |
| CatalogQuery.CleanEntries | API/Extensions/ProductExtension.cs:41-42 | Trimming, dropping empties and lower-casing the comma-free pieces yields only clean values, never more than the pieces |
| CatalogQuery.CleanEntriesLowerKept | API/Extensions/ProductExtension.cs:41-42 | The values are the pieces kept by trimming and dropping empties, each lower-cased, in their order |
| CatalogQuery.CleanEntriesSelectWhere | API/Extensions/ProductExtension.cs:39-42 | The values are exactly the non-blank pieces, trimmed and lower-cased, in their order: nothing else is dropped or changed |
| CatalogQuery.CleanEntryOf | API/Extensions/ProductExtension.cs:41-42 | A non-blank, comma-free piece becomes a clean value |
| CatalogQuery.FilterByBrandsAndTypes | API/Extensions/ProductExtension.cs:31-58 | The result keeps, in order, exactly the products whose lower-cased brand is listed (or the brand list is empty), and likewise for the type |
| CatalogQuery.FilterByCategoryAndBusiness | API/Extensions/ProductExtension.cs:62-74 | The result keeps, in order, exactly the products that match the business type and category case-sensitively. A blank value, or "All" in any case, imposes nothing |
| CatalogQuery.GetProducts | API/Controllers/ProductsController.cs:15-40 | The unscoped listing is in the chosen key-then-id order |
| CatalogQuery.GetProductsByCategory | API/Controllers/ProductsController.cs:51-75 | The category listing is in the chosen key-then-id order |
| CatalogQuery.CategoryListingMembers | API/Controllers/ProductsController.cs:56-60 | A product is in the category listing exactly when it is in the table and passes the scope, the search and the brand/type filter |
| CatalogQuery.GetProductsIsCategoryAll | API/Controllers/ProductsController.cs:20-29 | The unscoped listing equals the category listing for "All" without a business type |
| Facets.Scope | API/Controllers/ProductsController.cs:86-108 | The result keeps, in order, exactly the products whose trimmed, case-folded business type and category match and whose name contains the lower-cased term. "All" and blank values impose nothing |
| Facets.Values | API/Controllers/ProductsController.cs:111 | Empty field values are excluded, and each value occurs once per product that carries it |
| Facets.Bump | API/Controllers/ProductsController.cs:112-113 | One more element in a group raises only that group's count by one and keeps names unique |
| Facets.HasNameCons | API/Controllers/ProductsController.cs:112-113 | The names of a facet list are its head's name and the names of its tail |
| Facets.Tally | API/Controllers/ProductsController.cs:112-113 | Grouping gives one facet per distinct value, and each facet's count is how often its value occurs; the counts sum to the number of values |
| Facets.CountOfUnique | API/Controllers/ProductsController.cs:112-113 | With unique names, each facet's count is the count looked up by its name |
| Facets.FacetOrderIsTotalPreorder | API/Controllers/ProductsController.cs:114-115 | Count descending and then name ascending is a total preorder |
| Facets.TotalSort | API/Controllers/ProductsController.cs:114-115 | Sorting facets keeps the sum of their counts |
| Facets.SortedCounts | API/Controllers/ProductsController.cs:110-116 | After sorting, each facet is named by a non-empty value and counts the products carrying it |
| Facets.SortedCovers | API/Controllers/ProductsController.cs:110-116 | Every non-empty value of a scoped product has a facet after sorting |
| Facets.SortedStrict | API/Controllers/ProductsController.cs:114-115 | Sorted facets with unique names are strictly ordered by count descending, then name |
| Facets.CountWithPositive | API/Controllers/ProductsController.cs:112-113 | A product's own value is counted at least once |
| Facets.FacetsOf | API/Controllers/ProductsController.cs:110-124 | Facet names are unique and non-empty, and each count is the number of products with that value, at least one. Every non-empty value has a facet. The order is count descending, then name ascending, and the counts sum to the number of products with a value |
| Facets.GetFilters | API/Controllers/ProductsController.cs:79-127 | The brand and type lists are the facets of the same scoped products |
| Facets.ContainsLower | API/Controllers/ProductsController.cs:104-107 | Lower-casing both the name and the term keeps an occurrence |
| Facets.ListingWithinScope | API/Controllers/ProductsController.cs:86-108 | A product listed under a trimmed category and business type is inside the facet scope of the same values |
| Seeding.FirstByName | API/Data/DbInitializer.cs:336-337 | The first saved row with the seed's name, if any |
| Seeding.Overwrite | API/Data/DbInitializer.cs:343-357 | Category, business type, tags, featured flag, discount, price, description, picture, brand and type come from the seed. The name, stock, id and every other field are kept |
| Seeding.OverwriteTwice | API/Data/DbInitializer.cs:343-357 | Overwriting twice is overwriting with the later seed |
| Seeding.SeedStep | API/Data/DbInitializer.cs:334-358 | A seed whose name is not among the saved rows is added. Otherwise that row is overwritten. Rows added earlier in the run are not looked up |
| Seeding.SeedLoop | API/Data/DbInitializer.cs:334-358 | The loop state after the last seed is one step after the state before it |
| Seeding.SeedProducts | API/Data/DbInitializer.cs:334-360 | The saved table is the kept rows followed by the added ones |
| Seeding.SeedStepMatches | API/Data/DbInitializer.cs:334-358 | One iteration keeps the loop's declarative invariant |
| Seeding.SeedLoopMatches | API/Data/DbInitializer.cs:334-358 | After any prefix of the seeds, the loop state is the declarative result for that prefix |
| Seeding.SeedProductsIsExpected | API/Data/DbInitializer.cs:334-360 | Each saved row takes every seed of its name in order, keeping its identity fields. Seeds with new names are appended in order |
| Seeding.ApplySeedsChar | API/Data/DbInitializer.cs:343-357 | Applying the seeds to a row is overwriting it with the last seed of its name |
| Seeding.LastNamedDistinct | API/Data/DbInitializer.cs:334-358 | With distinct seed names, a name's last seed is its only one |
| Seeding.SeedProductsIdempotent | API/Data/DbInitializer.cs:334-360 | For seeds with distinct names, seeding the seeded table again gives the same table |
| Seeding.SecondRunRow | API/Data/DbInitializer.cs:334-360 | On a second run, every row of the first run's table is already final |
| Seeding.FirstByNamePrefix | API/Data/DbInitializer.cs:336-337 | A row that is first with its name before seeding is still first after it |
| Seeding.Elements | API/Data/DbInitializer.cs:368 | The set of the listed role names |
| Seeding.EnsureRoles | API/Data/DbInitializer.cs:370-381 | Only the missing roles are created and users are untouched. It succeeds iff every role is present or can be created. Otherwise the error names the first role that cannot be, and the roles created before it stay saved, since each `CreateAsync` saves before the exception |
| Seeding.FirstFailureCons | API/Data/DbInitializer.cs:370-378 | A role that is present or created moves the first failure one place further along the list |
| Seeding.SeedRoles | API/Data/DbInitializer.cs:368-381 | Succeeds iff each of User, Business and Admin is present or can be created. Then the role set is the old one plus exactly those three; otherwise the first failing role is reported and the roles before it are kept |
| Seeding.SeedRolesIdempotent | API/Data/DbInitializer.cs:368-381 | Once the roles exist, seeding them again changes nothing, whatever creation would report |
| Seeding.EnsureUser | API/Data/DbInitializer.cs:446-507 | An existing account gets the role only if it lacks it, and the type, business name and tax id only if the type differs; its address is never touched. A new account is created with user name equal to email, then given the role. Each failure is an error |
| Seeding.EnsureUserNoop | API/Data/DbInitializer.cs:456-481 | An account already seeded with its role and type is left unchanged without error, whatever the calls would report |
| Seeding.EnsureUsers | API/Data/DbInitializer.cs:387-443 | A failure of the first account is the whole result, so the accounts after it are not touched. Any error names one of the accounts' emails and is never a role-creation error. On success every account is seeded, and accounts under other keys stay seeded |
| Seeding.EnsureUsersNoop | API/Data/DbInitializer.cs:387-443 | Accounts that are all seeded are left unchanged |
| Seeding.EnsureUsersSucceed | API/Data/DbInitializer.cs:387-443 | Distinct fresh accounts whose roles exist are all created when every creation and role assignment succeeds |
| Seeding.SeedIdentity | API/Data/DbInitializer.cs:363-444 | When some role cannot be created, users are untouched and the error is the first failing role, with the roles before it kept. When all can be, the three roles exist afterwards whatever happens to the accounts, and an error names an account. On success all three accounts are seeded |
| Seeding.SeedIdentitySucceeds | API/Data/DbInitializer.cs:363-444 | On a store without the three accounts, seeding succeeds when every role can be created and every account call succeeds |
| Seeding.SeedIdentityKeepsEarlierRoles | API/Data/DbInitializer.cs:370-378 | On an empty store where only "User" can be created, the result keeps role "User" and reports "Business" |
| Seeding.SeedUserKeysDistinct | API/Data/DbInitializer.cs:387-443 | The three demonstration accounts have distinct lookup keys |
| Seeding.SeedIdentityIdempotent | API/Data/DbInitializer.cs:363-444 | After a successful identity seeding, a second one changes nothing and succeeds |
| Entities.NewUser | API/Entities/User.cs:19-33 | A new user has the given fields, and the declared defaults for the rest: empty business type and delivery notes, tier Bronze |
| Identity.FindByEmail | API/Controllers/AccountController.cs:24 | Finds the user stored under the normalised email, and only that user |
| Identity.FindByUserName | API/Controllers/AccountController.cs:148-150 | Whatever is found has exactly that user name |
| Identity.FindByUserNameComplete | API/Controllers/AccountController.cs:148-150 | In a well-formed store, the lookup finds every user with that exact name |
| Identity.CreateUser | API/Controllers/AccountController.cs:56 | Creation fails when reported to or when the normalised email is taken. Otherwise exactly the new user is added, with no roles |
| Identity.AddToRole | API/Controllers/AccountController.cs:81 | Succeeds only for an existing role the user lacks; only that user's roles grow |
| Account.NormalizeBusinessName | API/Controllers/AccountController.cs:33-35 | Absent exactly when blank, otherwise the trimmed, non-empty name |
| Account.RegisteredAddress | API/Controllers/AccountController.cs:38-53 | The full name falls back to the top-level name, or "", when blank. Every other field is copied verbatim |
| Account.RegisteredUser | API/Controllers/AccountController.cs:28-54 | User name and email are the trimmed email and the type is Public. The business name is normalised, and there is an address exactly when one was posted |
| Account.Enroll | API/Controllers/AccountController.cs:56-96 | Registration succeeds exactly when creation succeeds on a free key, the role exists or is created, and the role is assigned. On success only the new user, holding role Public, is added, and the reply carries its id, email, type and business name. A taken key changes nothing and is a validation problem |
| Account.RegisterUser | API/Controllers/AccountController.cs:16-97 | A blank email or password is rejected with its message before the lookup. A known email is rejected. Success stores the normalised user under its trimmed email, replies with the new id, the trimmed email, type Public and the normalised business name, and nobody else changes |
| Account.RegisterPreservesWellFormed | API/Controllers/AccountController.cs:16-97 | Registration keeps every user under its own normalised email, with user name equal to email |
| Account.RegisterSucceeds | API/Controllers/AccountController.cs:16-97 | With every call succeeding, a new non-blank email and password register |
| Account.PaddedDuplicateIsValidationProblem | API/Controllers/AccountController.cs:24-64 | A known email sent with a leading space passes the untrimmed lookup, then fails creation as a validation problem and stores nothing |
| Account.CreateOrUpdate | API/Controllers/AccountController.cs:146-186 | An unknown user is unauthorised. For a known user the reply is the address exactly when the update succeeds, and otherwise "Problem updating user address" with nothing changed. On success the address holds exactly the posted fields, a new address belongs to the user and an existing one keeps its owner; roles, other users and the user's other fields are unchanged |
| Account.GetSavedAddress | API/Controllers/AccountController.cs:191-212 | There is an address exactly when the signed-in user exists and has one, and it is that stored address's eight fields |
| Account.ToAddressDto | API/Controllers/AccountController.cs:200-210 | The wire form drops only the owner's id: writing its fields back into the address changes nothing |
| Account.WithDto | API/Controllers/AccountController.cs:162-169 | Overwriting an address with posted fields keeps its owner |
| Account.DtoWriteRead | API/Controllers/AccountController.cs:162-185 | The fields written into an address read back as exactly the posted DTO |
| Account.SaveThenGetAddress | API/Controllers/AccountController.cs:146-212 | Reading the address back after a successful save returns what was saved |
| Account.SaveAddressIdempotent | API/Controllers/AccountController.cs:146-186 | Saving the same address a second time changes nothing more |
| CatalogApi.ToCsv | client/src/features/catalog/catalogApi.ts:38-41 | Nothing for a missing or empty list; otherwise the values joined with commas |
| CatalogApi.JoinLength | client/src/features/catalog/catalogApi.ts:38-41 | A joined list is at least as long as its separators |
| CatalogApi.LowerTrimmed | API/Extensions/ProductExtension.cs:41-42 | The server's reading of each entry: trimmed, then lower-cased |
| CatalogApi.CsvRoundTrip | client/src/features/catalog/catalogApi.ts:38-41 | The server's CSV parsing of the client's CSV gives back the trimmed, lower-cased list, when no entry is blank or holds a comma |
| CatalogApi.CleanEntriesOfSendable | API/Extensions/ProductExtension.cs:41-42 | Non-blank, comma-free pieces survive the server's cleaning one for one |
| CatalogApi.Dedup | client/src/features/catalog/catalogApi.ts:115-119 | The first occurrences of the values, in order, none twice |
| CatalogApi.DedupAppend | client/src/features/catalog/catalogApi.ts:115-119 | The first occurrences of two joined lists are the front's, then the back's values that are new |
| CatalogApi.DedupLength | client/src/features/catalog/catalogApi.ts:115-119 | Removing repeats never lengthens a list |
| CatalogApi.LastWith | client/src/features/catalog/catalogApi.ts:115-119 | The last product with the id, present exactly when some product has it |
| CatalogApi.LastWithAppend | client/src/features/catalog/catalogApi.ts:115-119 | In two joined lists, the back's last product with an id wins over the front's |
| CatalogApi.IndexOfId | client/src/features/catalog/catalogApi.ts:115-117 | The position of the map entry with the id |
| CatalogApi.Put | client/src/features/catalog/catalogApi.ts:116-117 | Setting a present key replaces its value in place. A new key is appended last |
| CatalogApi.PutAll | client/src/features/catalog/catalogApi.ts:115-117 | A run of map sets keeps the map's keys unique |
| CatalogApi.PutAllAppend | client/src/features/catalog/catalogApi.ts:115-117 | Two runs of sets are one run over both lists |
| CatalogApi.PutAllIds | client/src/features/catalog/catalogApi.ts:115-119 | From an empty map, the ids come out in first-occurrence order |
| CatalogApi.PutAllValues | client/src/features/catalog/catalogApi.ts:115-119 | From an empty map, each value is the last product with its id |
| CatalogApi.PutValueStep | client/src/features/catalog/catalogApi.ts:115-117 | Setting another id does not change the value stored for a product |
| CatalogApi.Merge | client/src/features/catalog/catalogApi.ts:105-121 | Page 1, or no page, replaces items and meta. A later page keeps the new meta, or the old one when the new one is missing |
| CatalogApi.MergedIdsDedup | client/src/features/catalog/catalogApi.ts:114-119 | The merged ids are the cached ids in order, then the ids new to the cache in response order |
| CatalogApi.MergeKeepsOrder | client/src/features/catalog/catalogApi.ts:114-119 | For a later page, every merged id occurs once, cached ids keep their order, and new ids follow in response order |
| CatalogApi.MergeNewWins | client/src/features/catalog/catalogApi.ts:116-117 | For a later page, a fetched product replaces the cached one with its id, and other cached products stay |
| CatalogApi.StrNoLaterIsTotalOrder | client/src/features/catalog/catalogApi.ts:98-99 | The default string sort order is total and antisymmetric |
| CatalogApi.SortStrings | client/src/features/catalog/catalogApi.ts:98-99 | The sorted copy is a permutation of the list in code-unit order |
| CatalogApi.SerializeQueryArgs | client/src/features/catalog/catalogApi.ts:92-103 | The key carries every argument but the page, with defaults filled in and lists sorted |
| CatalogApi.CacheKeyIdentifiesQuery | client/src/features/catalog/catalogApi.ts:92-103 | Two argument sets share a key exactly when they ask for the same query, up to the page, the list order and omitted defaults |
| CatalogApi.CsvOrEmpty | client/src/features/catalog/catalogApi.ts:131-132 | The CSV form, or "" when there is none |
| CatalogApi.ForceRefetch | client/src/features/catalog/catalogApi.ts:123-135 | Missing arguments force a refetch. Otherwise a refetch is forced exactly when a field other than the page differs |
| CatalogApi.RefetchIgnoresPage | client/src/features/catalog/catalogApi.ts:123-135 | Another page of the same query never forces a refetch |
| CatalogApi.CsvOrEmptyInjective | client/src/features/catalog/catalogApi.ts:131-132 | For non-empty, comma-free values, equal CSV forms mean equal lists |
| CatalogApi.NoRefetchSharesCacheEntry | client/src/features/catalog/catalogApi.ts:92-135 | For comma-free selections, argument sets that force no refetch share one cache entry |
| CartApi.ClientView | API/Extensions/CartExtensions.cs:8-28 | The client's cart keeps the server's ids, and each line keeps its declared fields, in order |
| CartApi.Items | API/Extensions/CartExtensions.cs:16-26 | Every server line read on the client, in order |
| CartApi.TransformResponse | client/src/features/cart/cartApi.ts:22-24 | A missing cart reads as the empty cart (id 0, empty id, no lines). A present cart is kept as is |
| CartApi.FindItem | client/src/features/cart/cartApi.ts:45 | The first line holding the id, if any |
| CartApi.AddPatch | client/src/features/cart/cartApi.ts:44-52 | Only an existing line's quantity rises by the amount. A missing product is never inserted |
| CartApi.DropId | client/src/features/cart/cartApi.ts:90 | Never longer than the lines it filters |
| CartApi.DropIdIsWhere | client/src/features/cart/cartApi.ts:90 | It is the filter by a different id: every line with the id is removed, and the rest keep their order and their repeats |
| CartApi.DropIdMembers | client/src/features/cart/cartApi.ts:90 | The filter keeps exactly the lines with another id |
| CartApi.RemovePatch | client/src/features/cart/cartApi.ts:82-95 | An absent line is left alone. A result at or below zero drops every line with the id; otherwise the line is lowered |
| CartApi.Optimistic | client/src/features/cart/cartApi.ts:42-54 | The patch is applied only when a cart is cached |
| CartApi.Settle | client/src/features/cart/cartApi.ts:56-62 | Success caches the server's cart. Failure undoes the patch, leaving the cache as before |
| CartApi.AddCartItem | client/src/features/cart/cartApi.ts:33-63 | The add mutation's optimistic cache and its settled cache |
| CartApi.RemoveCartItem | client/src/features/cart/cartApi.ts:72-104 | The remove mutation's optimistic cache and its settled cache |
| CartApi.FailedMutationRestores | client/src/features/cart/cartApi.ts:59-62 | A failed add or remove leaves the cache as it was before the mutation |
| CartApi.FindAgrees | client/src/features/cart/cartApi.ts:45 | The client finds the same line as the server's lookup |
| CartApi.SameProductIds | API/Extensions/CartExtensions.cs:18 | The client view keeps every line's product id |
| CartApi.FirstIndexUnique | client/src/features/cart/cartApi.ts:45 | A list has at most one first position of an id |
| CartApi.AddPatchAgrees | client/src/features/cart/cartApi.ts:45-51 | For a positive quantity on a product already in the cart, the optimistic patch equals the view of the server's answer |
| CartApi.DropIdSingle | client/src/features/cart/cartApi.ts:90 | Where one line has the id, the filter removes exactly that line |
| CartApi.DropIdNone | client/src/features/cart/cartApi.ts:90 | Where no line has the id, the filter changes nothing |
| CartApi.RemovePatchAgrees | client/src/features/cart/cartApi.ts:83-93 | For a positive quantity on a valid cart, the remove patch equals the view of the server's answer |
| CartApi.RemoveLineAgrees | client/src/features/cart/cartApi.ts:89-90 | When the whole line goes, the client and the server drop the same line |
| CartApi.LowerLineAgrees | client/src/features/cart/cartApi.ts:91-92 | When the line is lowered, both sides store the same quantity |
| CartApi.RemovePatchNonPositiveDiverges | client/src/features/cart/cartApi.ts:86-93 | For a non-positive quantity the two disagree: the server drops the line, while the patch raises it or keeps it |
| CatalogSlice.Reduce | client/src/features/catalog/catalogSlice.ts:29-70 | Switching business type clears search, sort, brands and types and keeps the page size. Clearing resets those four. Every other action changes only its own field |
| CatalogSlice.InitialIsCleared | client/src/features/catalog/catalogSlice.ts:17-27 | The initial state is Grocery with page size 12 and no filters |
| CatalogSlice.ClearFiltersIdempotent | client/src/features/catalog/catalogSlice.ts:59-64 | Clearing twice is clearing once, and clearing a state without filters changes nothing |
| CatalogSlice.SetBusinessTypeThenClear | client/src/features/catalog/catalogSlice.ts:33-64 | Clearing right after switching business type changes nothing more |
| CatalogSlice.SetBusinessTypeIsClearIn | client/src/features/catalog/catalogSlice.ts:33-41 | Switching business type is clearing the filters under the new type |
| CatalogSlice.SortOptionAgreesWithServer | API/Extensions/ProductExtension.cs:13-18 | The server reads each client sort option as the key of the same name |
| CatalogSlice.SortTextInjective | client/src/features/catalog/catalogSlice.ts:3 | The sort options are told apart by their strings |
| CategoryPage.CategoryOf | client/src/features/catalog/CategoryPage.tsx:187-188 | A missing or empty route segment means "All". Otherwise the segment is used |
| CategoryPage.SearchParam | client/src/features/catalog/CategoryPage.tsx:33 | A blank term is not sent. Any other term is sent trimmed |
| CategoryPage.Request | client/src/features/catalog/CategoryPage.tsx:28-37 | The request carries the category, the page, the trimmed search and both selections |
| CategoryPage.HasMore | client/src/features/catalog/CategoryPage.tsx:42-45 | More pages exist when no header came back, or while the current page is below the page count |
| CategoryPage.OnIntersect | client/src/features/catalog/CategoryPage.tsx:78-84 | The page rises by exactly one, and only on an intersection while idle with more to come |
| CategoryPage.PageAfter | client/src/features/catalog/CategoryPage.tsx:26 | From a fresh mount the counter stays between 1 and 1 plus the number of events |
| CategoryPage.NextPageExtendsCache | client/src/features/catalog/CategoryPage.tsx:83 | Asking for the next page keeps the cache key, forces no refetch and is merged, not replaced |
| CategoryPage.ResetKeyOf | client/src/features/catalog/CategoryPage.tsx:200-210 | The key holds the trimmed term and sorted permutations of both selections |
| CategoryPage.ResetKeyInvariance | client/src/features/catalog/CategoryPage.tsx:200-210 | The key ignores the order of the selections and white space around the term |
| CategoryPage.SameResetKeySameCacheEntry | client/src/features/catalog/CategoryPage.tsx:200-212 | States with equal reset keys use one cache entry at any pages |
| CatalogControls.RemoveAll | client/src/features/catalog/CatalogControls.tsx:78 | Every copy of the value goes, and every other value stays |
| CatalogControls.ToggleInList | client/src/features/catalog/CatalogControls.tsx:77-78 | The value's membership flips and no other value's membership changes. An absent value is appended at the end |
| CatalogControls.RemoveAbsent | client/src/features/catalog/CatalogControls.tsx:78 | Removing a value that is not there changes nothing |
| CatalogControls.RemoveAllAppend | client/src/features/catalog/CatalogControls.tsx:78 | Removal distributes over joining lists |
| CatalogControls.ToggleTwice | client/src/features/catalog/CatalogControls.tsx:77-78 | Toggling an absent value twice gives the list back |
| CatalogControls.Mount | client/src/features/catalog/CatalogControls.tsx:53-69 | A fresh bar holds the committed search and selection, with the drawer closed |
| CatalogControls.Step | client/src/features/catalog/CatalogControls.tsx:80-107 | Draft toggles never touch the slice. Submit commits the trimmed input. Opening copies the selection into the draft, applying commits the draft, closing keeps the slice, and clearing all empties input, draft and filters |
| CatalogControls.DraftEditsStayLocal | client/src/features/catalog/CatalogControls.tsx:448-504 | Draft toggles change only the draft, which they build from where it started |
| CatalogControls.CloseDiscardsDraft | client/src/features/catalog/CatalogControls.tsx:80-85 | Opening, editing, then closing leaves the committed filters as they were |
| CatalogControls.ApplyCommitsDraft | client/src/features/catalog/CatalogControls.tsx:80-91 | Opening, editing, then applying commits exactly the edits made to the committed selection, and nothing else changes |
| CatalogControls.RunAppend | client/src/features/catalog/CatalogControls.tsx:80-107 | Running two lists of events is running one after the other |
| CatalogControls.SubmitSearchTrims | client/src/features/catalog/CatalogControls.tsx:94-96 | The committed term is trimmed, and submitting twice is submitting once |
| CatalogControls.ClearAllClears | client/src/features/catalog/CatalogControls.tsx:103-107 | After clearing all, the filters are cleared, the scope is kept and the badge counts nothing |
| CatalogControls.FilterCount | client/src/features/catalog/CatalogControls.tsx:72-75 | The badge is zero exactly when no brand and no type is committed |
| CatalogControls.DraftEditsKeepCount | client/src/features/catalog/CatalogControls.tsx:72-75 | Draft edits never move the badge |
| CatalogControls.SortLabel | client/src/features/catalog/CatalogControls.tsx:109-114 | The label is empty exactly for name order, and an arrow caption for each price order |
| CatalogControls.DropSortChipClearsLabel | client/src/features/catalog/CatalogControls.tsx:318 | Deleting the sort chip removes the label |
| CartPage.TotalItems | client/src/features/cart/CartPage.tsx:49-53 | 0 without items, otherwise the sum of the quantities |
| CartPage.SubtotalCents | client/src/features/cart/CartPage.tsx:55-61 | 0 without items, otherwise the sum of price times quantity |
| CartPage.SubtotalMatchesServer | client/src/features/cart/CartPage.tsx:55-61 | The subtotal shown for the server's cart equals the server's TotalAmount |
| CartPage.HasItems | client/src/features/cart/CartPage.tsx:49 | A cart is cached and holds at least one line |
| CartPage.PriceSumMatches | client/src/features/cart/CartPage.tsx:55-61 | Lines that agree on price and quantity have the same sum on both sides |
| CartPage.QuantitySumUpdate | client/src/features/cart/CartPage.tsx:51-53 | Raising one line by q raises the item count by q |
| CartPage.IncreaseRaisesCount | client/src/features/cart/CartPage.tsx:417 | "+" on a shown line raises the optimistic item count by one |
| CartPage.Press | client/src/features/cart/CartPage.tsx:404-426 | "−" removes one, "+" adds one, and "Remove" removes the line's whole quantity, always for the line's product |
| CartPage.RemoveLineDeletes | client/src/features/cart/CartPage.tsx:425-426 | "Remove" deletes exactly that line on the server, and the optimistic patch shows the same cart |
| CartPage.ConfirmCheckout | client/src/features/cart/CartPage.tsx:70-84 | The dialog closes. Navigation happens exactly when a cart is cached, and passes the cart, method, count and totals |
| OrderSummary.Total | client/src/app/shared/components/OrderSummary.tsx:21-24 | The total differs from the subtotal by fee minus discount, and both default to 0 |
| OrderSummary.ItemWord | client/src/app/shared/components/OrderSummary.tsx:148 | Singular exactly for one item |
| OrderSummary.DiscountText | client/src/app/shared/components/OrderSummary.tsx:119 | A positive discount is formatted after a minus sign, otherwise "-$0.00"; it always starts with a minus |
| OrderSummary.Render | client/src/app/shared/components/OrderSummary.tsx:41-43 | Nothing when closed. Otherwise the subtotal as given, the discount row for the defaulted discount ("-$0.00" unless positive), the total, the defaulted fee and the item count line |
| OrderSummary.Interact | client/src/app/shared/components/OrderSummary.tsx:27 | At most one confirmation per event |
| OrderSummary.ConfirmPassesSelection | client/src/app/shared/components/OrderSummary.tsx:190 | Confirming passes the last method chosen, or card when none was |
| ProductCard.BrandText | client/src/features/catalog/ProductCard.tsx:54-57 | "GENERIC" for a missing or blank brand, otherwise the trimmed brand in capitals |
| ProductCard.BrandTextShape | client/src/features/catalog/ProductCard.tsx:54-57 | The caption is never empty, never padded and has no lower-case letter |
| ProductCard.CartQty | client/src/features/catalog/ProductCard.tsx:62-66 | The quantity of the first cached line for the product, 0 without one |
| ProductCard.InCart | client/src/features/catalog/ProductCard.tsx:67 | Shown as in the cart only when a cart is cached and holds a line for the product |
| ProductCard.DisplayQty | client/src/features/catalog/ProductCard.tsx:67-72 | The cart's positive quantity once in the cart, the local pick before |
| ProductCard.Handle | client/src/features/catalog/ProductCard.tsx:82-132 | Out of the cart, "+" and "−" move only the local pick within its bounds, and the primary button adds the pick and resets it on success. In the cart, "+" and "−" request one more or one less, and the primary button does nothing. The removal toast appears exactly at quantity 1 |
| ProductCard.LocalQtyInRange | client/src/features/catalog/ProductCard.tsx:43-105 | From a fresh tile, the local pick stays within 1 to 99 whatever is pressed |
| AccountPage.IsUnauthorized | client/src/features/account/AccountPage.tsx:117-121 | True exactly when the status, or the original status when none, is 401 |
| AccountPage.Present | client/src/features/account/AccountPage.tsx:136 | Drops only missing and empty values and keeps white space |
| AccountPage.PresentIsSelectWhere | client/src/features/account/AccountPage.tsx:136 | It is the filter on present, non-empty values followed by unwrapping: the kept values keep their order and their repeats |
| AccountPage.CityLineOrder | client/src/features/account/AccountPage.tsx:136 | A city and a state are joined as "city, state", in that order, and a missing postal code adds nothing |
| AccountPage.CityLineKeepsBlanks | client/src/features/account/AccountPage.tsx:136 | A blank city survives in the middle line |
| AccountPage.FormatStoreAddress | client/src/features/account/AccountPage.tsx:123-143 | Nothing without an address or when every line is blank. Otherwise the trimmed non-blank lines joined with " • " |
| AccountPage.FormattedAddressIsTrimmed | client/src/features/account/AccountPage.tsx:133-142 | A formatted address is never empty and never padded |
| AccountPage.AccountTypeLabel | client/src/features/account/AccountPage.tsx:146-156 | 1 is Business, 7 is Admin, anything else is Public |
| AccountPage.TierLabel | client/src/features/account/AccountPage.tsx:158-170 | 0 is Platinum, 1 Gold, 2 Silver, anything else Bronze |
| AccountPage.LabelsMatchServerEnums | API/Entities/User.cs:5-17 | Each server enum value is captioned with its own name |
| AccountPage.AdminIsBusiness | client/src/features/account/AccountPage.tsx:275-276 | Every admin gets the business screen, and the business screen goes exactly with a non-public caption |
| AccountPage.IsBusiness | client/src/features/account/AccountPage.tsx:275 | The business screen goes exactly with a caption other than "Public" |
| AccountPage.IsAdmin | client/src/features/account/AccountPage.tsx:276 | Admin exactly when the caption is "Admin", and every admin gets the business screen |
| AccountPage.OwnerName | client/src/features/account/AccountPage.tsx:286-289 | The address's name unless empty. Otherwise, for business accounts, the business name when present, else "Business Account"; "Public User" for others |
| AccountPage.OwnerNameFallbacks | client/src/features/account/AccountPage.tsx:286-289 | An empty address name falls back like a missing one, and the line is empty only for a business account whose stored business name is empty |
| AccountPage.Initials | client/src/features/account/AccountPage.tsx:305-309 | One character: the placeholder for a blank name, else the capitalised first character of the trimmed name |
| RegisterPage.TrimmedMessage | client/src/features/account/Register.tsx:39 | A string's trimmed form, or nothing when blank |
| RegisterPage.ValueMessages | client/src/features/account/Register.tsx:52-63 | A dictionary value gives trimmed, non-empty lines only |
| RegisterPage.ConcatAppend | client/src/features/account/Register.tsx:51-64 | Collecting lines distributes over joining key lists |
| RegisterPage.PerField | client/src/features/account/Register.tsx:51-64 | One entry of lines per key, in key order |
| RegisterPage.ConcatOfMessages | client/src/features/account/Register.tsx:48-66 | A dictionary yields only trimmed, non-empty lines |
| RegisterPage.NormalizeToMessages | client/src/features/account/Register.tsx:36-69 | Only trimmed, non-empty lines, and nothing for a missing or falsy value |
| RegisterPage.FieldMessagesAppend | client/src/features/account/Register.tsx:51-64 | A dictionary's lines are those of its first keys followed by those of the rest |
| RegisterPage.OneStringArray | client/src/features/account/Register.tsx:39-46 | A one-string array yields what the string alone yields |
| RegisterPage.OneKeyDictionary | client/src/features/account/Register.tsx:48-66 | A one-key dictionary yields what its value yields |
| RegisterPage.ShapesAgree | client/src/features/account/Register.tsx:36-69 | A string, a one-string array and one-key dictionaries holding either all give the same lines |
| RegisterPage.OrDefault | client/src/features/account/Register.tsx:76-77 | The trimmed string when it is not blank, otherwise the default line |
| RegisterPage.StringMessage | client/src/features/account/Register.tsx:99-100 | A string property's trimmed form as at most one line |
| RegisterPage.MessageParts | client/src/features/account/Register.tsx:88-94 | No parts when the message is not a string; otherwise trimmed, non-empty pieces |
| RegisterPage.DataMessages | client/src/features/account/Register.tsx:80-101 | The first non-empty of: the comma parts of a string message, the model errors, the detail, the title; empty exactly when all four are |
| RegisterPage.GetErrorMessages | client/src/features/account/Register.tsx:71-117 | Always at least one trimmed, non-empty line. A string body or a thrown message gives its trimmed form, or the default when blank. An object body gives its lines, or the default when it has none. A missing body, or one that is null, an array, a number or a boolean, gives the default |
| RegisterPage.FirstFieldRead | client/src/features/account/Register.tsx:88 | A field listed first is the one read |
| RegisterPage.StatusErrorData | client/src/features/account/Register.tsx:72-73 | The data of an error with a status is its data field |
| RegisterPage.MessagePartsFirst | client/src/features/account/Register.tsx:88-94 | A message of comma-separated lines is read as those lines, whatever else the body holds |
| RegisterPage.MessagePartsOfJoin | client/src/features/account/Register.tsx:88-93 | Splitting a comma-joined message of trimmed, comma-free lines on "," and trimming gives the lines back |
| RegisterPage.BodyLinesShown | client/src/features/account/Register.tsx:80-101 | An object body that yields lines shows those lines |
| RegisterPage.MessageSplitRoundTrip | client/src/features/account/Register.tsx:88-94 | Comma-free, trimmed lines joined with commas by the server come back as exactly those lines |
| RegisterPage.ThrownValidationIsOneLine | client/src/features/account/Register.tsx:111-114 | A validation dictionary thrown by the query wrapper reaches the form as one line holding every message |
| RegisterPage.OptionalFieldsNotRequired | client/src/features/account/Register.tsx:167-180 | The business name and second line never block submission, and a fresh form cannot be submitted |
| RegisterPage.CanSubmit | client/src/features/account/Register.tsx:167-180 | A submittable form with matching passwords sends a request whose email, name and required address fields are all non-empty |
| RegisterPage.Optional | client/src/features/account/Register.tsx:209 | Nothing for a blank value, otherwise the trimmed value |
| RegisterPage.Submit | client/src/features/account/Register.tsx:199-219 | Mismatched passwords give the message and no request. Otherwise every field but the password is trimmed, and blank optional fields are left out |
| RegisterPage.ServerKeepsSubmittedForm | client/src/features/account/Register.tsx:205-219 | With a non-blank name, the server stores the email, business name and address name exactly as the form sent them |
| LoginPage.Usable | client/src/features/account/LoginPage.tsx:32 | A string property whose trimmed form is non-empty, returned untrimmed |
| LoginPage.DataLine | client/src/features/account/LoginPage.tsx:28-39 | The first usable of title, message and detail |
| LoginPage.GetErrorMessage | client/src/features/account/LoginPage.tsx:22-45 | The data's line, then a usable error string, then "Login failed."; a non-object always gives "Login failed." |
| LoginPage.TitleFirst | client/src/features/account/LoginPage.tsx:31-32 | A usable title is shown before anything else, as it was sent |
| LoginPage.MessageSecond | client/src/features/account/LoginPage.tsx:31-35 | When the title is unusable, a usable message is shown as it was sent |
| LoginPage.DetailThird | client/src/features/account/LoginPage.tsx:31-38 | When title and message are unusable, a usable detail is shown as it was sent |
| LoginPage.ErrorFallback | client/src/features/account/LoginPage.tsx:27-41 | When the data yields nothing, a usable error string is shown |
| LoginPage.DefaultWhenNothingUsable | client/src/features/account/LoginPage.tsx:22-45 | "Login failed." when nothing usable was sent; with something usable the line is never blank |
| LoginPage.PaddingKept | client/src/features/account/LoginPage.tsx:32 | A padded title keeps its padding |
| LoginPage.UnauthorizedTitleShown | client/src/features/account/LoginPage.tsx:72-73 | A 401 with a titled body is only logged by the query wrapper, and the form shows the title |
| LoginPage.Request | client/src/features/account/LoginPage.tsx:70 | The trimmed email and the password as typed |
| LoginPage.CanSubmit | client/src/features/account/LoginPage.tsx:60-63 | Submittable only with a visible email character, a non-empty password and no request in flight |
| LoginPage.SubmittedEmailIsClean | client/src/features/account/LoginPage.tsx:60-70 | A submittable form sends a non-empty trimmed email, whatever padding was typed |
| BaseApi.GetHttpStatus | client/src/app/api/baseApi.ts:31-38 | A parsing error reports its original code. Any other status is reported as is |
| BaseApi.AsErrorResponse | client/src/app/api/baseApi.ts:40-67 | A string stays text. A string title wins over errors. Non-null object errors come next. Anything else gets the fallback title |
| BaseApi.Values | client/src/app/api/baseApi.ts:93 | An object's values in order, an array's items |
| BaseApi.Texts | client/src/app/api/baseApi.ts:93 | One text per element |
| BaseApi.TextsAppend | client/src/app/api/baseApi.ts:93 | Texts distribute over joining lists |
| BaseApi.StringsOf | client/src/app/api/baseApi.ts:93 | The strings of a string array, in order |
| BaseApi.TextsOfStrings | client/src/app/api/baseApi.ts:93 | A string array's texts are its strings |
| BaseApi.FlatTextsOfStringLists | client/src/app/api/baseApi.ts:93 | The flattened texts of a validation dictionary are its messages in field order |
| BaseApi.ValidationMessageJoinsAll | client/src/app/api/baseApi.ts:92-94 | The thrown message holds every field's messages, in order, joined with ", " |
| BaseApi.ValidationMessage | client/src/app/api/baseApi.ts:93 | The text of every element of every field's list, joined with ", " |
| BaseApi.React | client/src/app/api/baseApi.ts:87-137 | A 400 toasts text or a title and throws for errors. A 401 logs a title or toasts "Unauthorized". A 404 goes to /not-found. A 500 with a title goes to /server-error, and without one is toasted. Network and timeout errors are toasted, and anything else is ignored |
| BaseApi.HandleResult | client/src/app/api/baseApi.ts:83-140 | A success passes through untouched. A failure gets its reaction, and the result is handed back unchanged unless the reaction throws |
| BaseApi.ParsingErrorActsAsItsCode | client/src/app/api/baseApi.ts:31-38 | A body that fails to parse is handled exactly as a parsed one with the same code |
| BaseApi.TitledValidationIsToasted | client/src/app/api/baseApi.ts:45-63 | A 400 body with a title is toasted even when it also carries errors |
| Json.Get | client/src/app/api/baseApi.ts:48-49 | A property's value, present only when an object has the key |
| Json.FieldValue | client/src/app/api/baseApi.ts:48-49 | The first field with the key |
| Json.StringAt | client/src/app/api/baseApi.ts:49 | The property's string, only when it is a string |
| Json.TrimmedStrings | client/src/features/account/Register.tsx:42-45 | Strings only, trimmed, with blanks dropped |
| Json.TrimmedStringsMembers | client/src/features/account/Register.tsx:42-45 | The kept lines are exactly the trimmed forms of the non-blank strings |
| Json.TrimmedStringsAppend | client/src/features/account/Register.tsx:42-45 | Keeping strings distributes over joining lists |
| Counter.CounterReducer | client/src/features/contact/counterReducer.ts:9-21 | "increment" adds one and "decrement" subtracts one. Any other action keeps the state, and a missing state is 42 |
| Counter.IncrementDecrementInverse | client/src/features/contact/counterReducer.ts:14-17 | Increment then decrement, or the reverse, gives the state back |
| Counter.RunCounts | client/src/features/contact/counterReducer.ts:13-20 | A run moves the count by its increments less its decrements, in any order |
| Navigation.BadgeText | client/src/app/layout/BottomNav.tsx:35-36 | No badge for a count of 0 or less. "9+" above 9, and one digit otherwise |
| Navigation.BadgeReadsBack | client/src/app/layout/BottomNav.tsx:36 | A one-digit badge reads back as the count |
| Navigation.CurrentValue | client/src/app/layout/BottomNav.tsx:78-81 | Always one of the four tabs. It is the path exactly when the path is a tab, and home otherwise |
| Navigation.IsChildPage | client/src/app/layout/TopNavBar.tsx:26 | A path mentioning "/products" always has a last segment to title the page |
| Navigation.LastNonEmpty | client/src/app/layout/TopNavBar.tsx:31-32 | Missing exactly when every piece is empty; otherwise a non-empty piece after which every piece is empty |
| Navigation.LastSegment | client/src/app/layout/TopNavBar.tsx:30-34 | The last non-empty piece of the path split on "/", holding no slash |
| Navigation.TrailingSlashSameSegment | client/src/app/layout/TopNavBar.tsx:31 | A trailing slash does not change the last segment |
| Navigation.JoinOfEmpties | client/src/app/layout/TopNavBar.tsx:31 | A path whose pieces are all empty is made of slashes only |
| Navigation.ChildPageHasSegment | client/src/app/layout/TopNavBar.tsx:26-34 | A child page always has a segment to name it |
| Navigation.PageTitle | client/src/app/layout/TopNavBar.tsx:36 | On a child page, the decoded last non-empty segment of the path; "NeoWasl" elsewhere |
| Navigation.TrailingSlashSameTitle | client/src/app/layout/TopNavBar.tsx:26-36 | A trailing slash changes neither the kind of page nor its title |
| Navigation.TitleClick | client/src/app/layout/TopNavBar.tsx:98 | The title goes home exactly on a top-level page |
| HomeWidgets.Route | client/src/features/home/componenets/BusinessTypeSwitcher.tsx:9-14 | Each business type's route |
| HomeWidgets.RoutesInjective | client/src/features/home/componenets/BusinessTypeSwitcher.tsx:9-14 | Each type has its own route, and Grocery's is "/home" |
| HomeWidgets.IndexOf | client/src/features/home/componenets/BusinessTypeSwitcher.tsx:6 | The type's position in the display list |
| HomeWidgets.VisibleTypes | client/src/features/home/componenets/BusinessTypeSwitcher.tsx:73-74 | Exactly three buttons: every type but the active one, in display order |
| HomeWidgets.HandleSelect | client/src/features/home/componenets/BusinessTypeSwitcher.tsx:53-60 | The parent is told first if it listens, then the switcher navigates to the type's route if it may |
| HomeWidgets.ModeFromPath | client/src/features/home/componenets/PromoBanner.tsx:47-52 | "/smoke" wins; otherwise "/electronics" gives electronics, then "/accessories" gives accessories, and anything else is grocery |
| HomeWidgets.RoutesSelectTheirMode | client/src/features/home/componenets/FeaturedProducts.tsx:57-62 | The switcher's routes land on pages of the matching mode |
| HomeWidgets.Promos | client/src/features/home/componenets/PromoBanner.tsx:20-45 | Four messages for every mode |
| HomeWidgets.Tick | client/src/features/home/componenets/PromoBanner.tsx:139-141 | The next message, wrapping around and staying in range. With one message or none there is no rotation |
| HomeWidgets.TicksAdvance | client/src/features/home/componenets/PromoBanner.tsx:141 | Up to a full cycle of ticks advances the index by that many, wrapping once |
| HomeWidgets.FullCycleReturns | client/src/features/home/componenets/PromoBanner.tsx:141 | A full cycle of ticks returns to the starting message |
| HomeWidgets.BannerText | client/src/features/home/componenets/PromoBanner.tsx:146-220 | Nothing without messages or past the end. Otherwise the message at the current index |
| HomeWidgets.ThemeOf | client/src/features/home/componenets/FeaturedProducts.tsx:64-106 | Smoke gets its own theme, and every other mode the grocery one |
| HomeWidgets.FeaturedData | client/src/features/home/componenets/FeaturedProducts.tsx:19-44 | Four products per mode, each id starting with its mode's letter |
| HomeWidgets.FeaturedIdsUnique | client/src/features/home/componenets/FeaturedProducts.tsx:19-44 | Ids are distinct within a mode and never repeat across modes |
| HomeWidgets.PictureOf | client/src/features/home/componenets/FeaturedProducts.tsx:210 | A "#" colour renders as a swatch, anything else as an image |
| Text.Trim | API/Extensions/ProductExtension.cs:25 | The result is trimmed, is empty exactly for a blank string, and leaves an already trimmed string alone |
| Text.TrimIdempotent | API/Extensions/ProductExtension.cs:25 | Trimming twice is trimming once |
| Text.ToLowerIdempotent | API/Extensions/ProductExtension.cs:42 | Lower-casing twice is lower-casing once |
| Text.SplitJoin | API/Extensions/ProductExtension.cs:41 | Splitting a joined list of separator-free pieces gives the pieces back |
| Text.JoinSplit | client/src/features/account/Register.tsx:89-90 | Joining the pieces of a split gives the string back |
| Text.KeepTrimmed | client/src/features/account/AccountPage.tsx:139-140 | Only trimmed, non-empty pieces survive, and none survive exactly when all are blank |
| Text.KeepTrimmedIsTrimOfNonBlank | client/src/features/account/AccountPage.tsx:139-140 | The survivors are exactly the trimmed non-blank pieces, in their order |
| Text.KeepTrimmedFixed | client/src/features/account/AccountPage.tsx:139-140 | Pieces that are already trimmed and non-empty all survive unchanged |
| Text.NatTextRoundTrip | client/src/app/layout/BottomNav.tsx:36 | A count's decimal text reads back as the count |

## Left out

- Carts.AddProduct: the null-product guard (API/Entities/Cart.cs:28) is not modelled, because a `Product` value always exists in the model.
- Floating point and currency: client dollar amounts (`subtotal/100`, `toFixed`) and `currencyFormat` are not modelled. `CartPage.ConfirmCheckout` passes whole cents, and `currencyFormat` is a function parameter of `OrderSummary.DiscountText`. JavaScript number precision is not modelled either.
- Integer width: quantities (`int`) and prices (`long`) are unbounded integers, so overflow in `Quantity += quantity` or `Price * Quantity` is not modelled.
- SQL `LIKE` and collation: search is a case-sensitive substring match. Wildcards in the term and the provider's collation are not modelled.
- Unicode: trimming, `ToLower`, `ToUpper` and the Identity key normaliser act on ASCII only.
- `AccountPage.Initials`: states the capitalised first character only for names that are not blank. A name whose first character is not a single UTF-16 unit (an emoji) is not covered, because strings are sequences of code points here.
- `decodeURIComponent` is an opaque function parameter of `Navigation.PageTitle`. A malformed escape, which throws, is not modelled.
- Paging: `PagedList`, `ToPagedList`, `AddPaginationHeader` and the JSON header parse are left out. The listing endpoints are modelled before paging, and the header is an optional input.
- `getCatalog` (client/src/features/catalog/catalogApi.ts:141-219) is the same text as `getProductsByCategory`, so it is modelled once. Likewise FeaturedProducts' `getModeFromPath` is the same text as PromoBanner's, and both are `HomeWidgets.ModeFromPath`.
- The `category ?? "All"` fallback in the cache key is unreachable, because the category is a required string.
- `JSON.stringify` and `Object.keys` ordering: cache keys and reset keys are tuples. Object fields are taken in stored order, so JavaScript's rule of listing integer-like keys first is not modelled.
- `RegisterPage.GetErrorMessages`: its `Error`-instance branch (client/src/features/account/Register.tsx:111-114) is merged with the serialized-error branch. Both read a `message` string the same way.
- Cookies, `CartController`, the logout cookie expiry and `RowVersion` concurrency columns are not part of this model.
- Timers, `IntersectionObserver`, async ordering and RTK Query's `undo()`: concurrent mutations are not modelled. Undo restores the pre-mutation cache of a single mutation.
- Seeding dates: `DiscountStartUtc`/`DiscountEndUtc` are computed from `UtcNow` in the source, and the seed list is an input here. `Seeding.SeedProductsIdempotent` therefore holds for a fixed seed list, and requires the seed names to be distinct.
- `EnsureUserAsync` ignores the result of `UpdateAsync`, and the model does the same. `CreatedAt` and other clock fields are not modelled.
- `RegisterPage.ServerKeepsSubmittedForm`: requires a non-blank full name, though the form's `canSubmit` demands more. The conclusion needs only that.
- `BaseApi.HandleResult`: when the wrapper throws (a 400 with `errors`), nothing is handed back. So "the result is returned unchanged" holds in every case but that one.
- Loading start/stop dispatches, the 250 ms delay, toasts' appearance, styles, themes beyond their colours, and all rendering are left out.

## Observations

These are behaviours of the code as written that the proofs make explicit. They are modelled as written.

- Registration assigns the role "Public" (API/Controllers/AccountController.cs:67). Seeding creates "User", "Business" and "Admin" (API/Data/DbInitializer.cs:368), so the first registration creates a fourth role. See `Account.Enroll`.
- The duplicate-email check uses the untrimmed email (API/Controllers/AccountController.cs:24), while creation uses the trimmed one. A known email sent with padding ends in a validation problem, not "Email is already in use.". See `Account.PaddedDuplicateIsValidationProblem`.
- For a non-positive quantity, the optimistic remove patch and the server disagree. The server removes the line; the patch raises or keeps it. See `CartApi.RemovePatchNonPositiveDiverges`.
- An ASP.NET validation problem carries a `title`, so a 400 with `errors` is toasted by its title rather than thrown. See `BaseApi.TitledValidationIsToasted`.
- `forceRefetch` compares brand and type lists in order, while the cache key sorts them. A reordered selection therefore refetches into the same cache entry.
