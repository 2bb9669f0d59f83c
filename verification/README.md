# online-shop, modelled in Dafny

This project models the core of the online shop, a small Express/MySQL backend with a Next.js frontend.

**Services.** The cart, favorites, category, product and auth services are classes. Each one owns its table as a sequence of typed rows plus an AUTO_INCREMENT counter. Every statement that writes is a method whose postcondition ties the new table to a specification function of the old one. Read-only queries and joins are functions of the table, and a join takes the other table's rows as a parameter.

**Request handling.** Each controller is written as a plan: a function from the request's raw JavaScript values to either a response or a service call with its success status. That plan is then combined with how the call ends, returning or throwing. The auth controller's `register` is a method over the users table. The zod schemas, the category and auth middlewares, and the image URL normaliser are functions.

**Frontend.**
- The cart client's header, `normalize` and count helpers are functions.
- The auth client's token storage is a class over `localStorage`.
- The product form's state is a class whose handlers are methods.

**JavaScript semantics.** These are written out in module `Js`:
- values, truthiness, `??` and `||`;
- `trim`, a one-character `split`, `String(v)` and `Number(v)`.

A number is a real or NaN.

**Library calls.** Each one is a function parameter, never executed:
- bcrypt's `hash` and `compare`, and `jwt.sign` and `jwt.verify`;
- zod's email and URL checks and its error-message text;
- JavaScript's string-to-number conversion, and its printing of non-integers and of integers of 10^21 or more (exponent form);
- `atob` with `JSON.parse`, and `parseFloat` with `Intl.NumberFormat`.

## Model

| member | source | states |
|---|---|---|
| Image.NormalizeImageUrl | backend/src/utils/image.ts:6-13 | the result never has surrounding white space |
| Image.NormalizeEmpty | backend/src/utils/image.ts:7 | null, undefined, empty or non-string input gives "" |
| Image.NormalizeAbsolute | backend/src/utils/image.ts:8-9 | input beginning `http://` or `https://` once trimmed is returned trimmed |
| Image.NormalizeUnsplash | backend/src/utils/image.ts:10-11 | a `photo-` or `unsplash` input becomes the Unsplash base plus the trimmed input, one leading `/` dropped |
| Image.NormalizeOther | backend/src/utils/image.ts:12 | any other non-empty input is returned trimmed |
| Image.UnsplashUrl | backend/src/utils/image.ts:11 | the built URL is trimmed and starts with `https://` |
| Image.UnsplashFragmentLength | backend/src/utils/image.ts:10 | a fragment that triggers the Unsplash rule has at least 6 characters |
| Image.NormalizeIdempotent | backend/src/utils/image.ts:6-13 | normalising a normalised URL changes nothing |
| Image.NormalizeTrimmedAbsolute | backend/src/utils/image.ts:8-9 | a trimmed absolute URL is a fixed point |
| Image.WithNormalizedImage | backend/src/utils/image.ts:15-18 | a falsy item is returned as is; otherwise only `image_url` changes (added if absent) and every other field is kept |
| Image.WithNormalizedImages | backend/src/utils/image.ts:20-23 | a non-array gives []; an array keeps its length and order, each element normalised |
| Image.WithNormalizedImageIdempotent | backend/src/utils/image.ts:15-18 | normalising a record twice is normalising it once |
| Image.WithNormalizedImagesIdempotent | backend/src/utils/image.ts:20-23 | normalising a list twice is normalising it once |
| Js.Trim | backend/src/middlewares/category.middleware.ts:17 | `trim()` leaves no white space at either end and never lengthens |
| Js.TrimIdempotent | backend/src/middlewares/category.middleware.ts:28 | trimming a trimmed string changes nothing |
| Js.Split | backend/src/middlewares/auth.middleware.ts:22 | a split has at least one piece and no piece holds the separator |
| Js.JoinSplit | frontend/src/lib/auth.ts:20 | joining the pieces with the separator gives the string back |
| Js.SplitHasSecond | backend/src/middlewares/auth.middleware.ts:22 | there is a second piece exactly when the separator occurs |
| Js.SplitAtFirst | backend/src/middlewares/auth.middleware.ts:22 | the first piece is the text before the first separator, then come the pieces of the rest |
| Products.Stored | backend/src/services/product.service.ts:9-20 | the inserted row holds exactly the seven given columns, the fresh id, and a NULL `category_id` |
| Products.Overwrite | backend/src/services/product.service.ts:46 | an updated row has the seven new columns and keeps its id and `category_id` |
| Products.ProductRow | backend/src/services/product.service.ts:36 | a product as a `SELECT *` row object, with all nine columns |
| Products.CreatedResponse | backend/src/services/product.service.ts:24-28 | `{ id: insertId, ...body }`: every key of the body echoed, untyped ones such as `category_id` included; the fresh id unless the body's own `id` overrides it |
| Products.CreatedEchoesUnstored | backend/src/services/product.service.ts:9-28 | a body `category_id` is echoed although the row's `category_id` is NULL; an explicit `category: null` is echoed and a missing one is not |
| Products.ProductService.constructor | backend/src/services/product.service.ts:4 | the service over a table with positive, unique ids below the counter |
| Products.ProductService.CreateProduct | backend/src/services/product.service.ts:5-33 | one row appended under the next id, holding the seven columns only; the counter advanced; the reply echoes the whole body as above; ids still unique |
| Products.ProductService.GetProducts | backend/src/services/product.service.ts:35-38 | every row, never null |
| Products.ProductService.GetProductById | backend/src/services/product.service.ts:40-43 | exactly the rows with that id, an empty list rather than null, at most one |
| Products.ProductService.UpdateProduct | backend/src/services/product.service.ts:45-48 | every row with the id overwritten, nothing else; the result counts the matched rows |
| Products.ProductService.DeleteProduct | backend/src/services/product.service.ts:50-53 | every row with the id removed, nothing else; the table shrinks by the matched count |
| Products.InsertFresh | backend/src/services/product.service.ts:9-10 | the fresh AUTO_INCREMENT id is not yet in the table, and the insert keeps ids unique |
| Products.ReadAfterCreate | backend/src/services/product.service.ts:9-42 | reading a created product by its id gives exactly the stored row |
| Products.UpdateProductEffect | backend/src/services/product.service.ts:46 | the row with the id gets the new columns, keeps id and `category_id`; every other row is as it was |
| Products.UpdateProductAbsent | backend/src/services/product.service.ts:46 | updating an absent id changes nothing |
| Products.DeleteProductEffect | backend/src/services/product.service.ts:51 | an absent id changes nothing; afterwards no row has the id; rows of every other id are as they were |
| Products.DeleteKeepsIds | backend/src/services/product.service.ts:51 | deleting rows keeps every id positive and below the counter |
| Cart.CartService.constructor | backend/src/services/cart.service.ts:4 | the service over a cart_items table with ids below the counter |
| Cart.CartService.GetCart | backend/src/services/cart.service.ts:5-16 | the user's joined rows, newest first, each with `image_url` normalised |
| Cart.CartService.AddToCart | backend/src/services/cart.service.ts:18-38 | the new table and reply are `Added` and `AddReply` of the old table; one line per (user, product) is kept, and so is positivity when q is at least 1 |
| Cart.CartService.UpdateQuantity | backend/src/services/cart.service.ts:40-54 | the new table and reply are `QuantityUpdated` and `UpdateReply` of the old table; one line per pair and positivity are kept |
| Cart.CartService.RemoveFromCart | backend/src/services/cart.service.ts:56-63 | the new table and reply are `RemovedLine` and `RemoveReply` of the old table; one line per pair and positivity are kept |
| Cart.AddKeepsOneLinePerPair | backend/src/services/cart.service.ts:19-35 | a line is inserted only when none exists, so there stays at most one line per (user, product) |
| Cart.AddMerges | backend/src/services/cart.service.ts:24-37 | afterwards the pair has exactly one line holding old quantity (0 when absent) plus q; `updated` iff a line existed; an `id` iff one was inserted |
| Cart.AddToExisting | backend/src/services/cart.service.ts:24-30 | on an existing line, that same line is updated in place to old + q |
| Cart.AddTwice | backend/src/services/cart.service.ts:24-37 | add(u,p,a) then add(u,p,b) on a pair without a line leaves exactly one line, holding a + b |
| Cart.AddFrame | backend/src/services/cart.service.ts:26-34 | no line of another (user, product) pair changes |
| Cart.AddKeepsPositive | backend/src/services/cart.service.ts:25 | quantities of at least 1 stay at least 1 when amounts of at least 1 are added |
| Cart.UpdateBelowOneDeletes | backend/src/services/cart.service.ts:41-46 | q < 1 deletes the line, answers removed whether or not a line existed, and changes nothing when there was none |
| Cart.UpdateOverwritesInPlace | backend/src/services/cart.service.ts:48-53 | q >= 1 never inserts or deletes; the line, if any, holds q; `updated` iff a line existed |
| Cart.UpdateKeepsInvariants | backend/src/services/cart.service.ts:41-50 | one line per pair, positive quantities and every other pair's line are kept |
| Cart.RemoveEffect | backend/src/services/cart.service.ts:56-62 | `removed` iff a line existed; afterwards none exists; an absent line leaves the table as it was; other pairs untouched; a second remove answers false |
| Cart.RemoveKeepsInvariants | backend/src/services/cart.service.ts:57-60 | one line per pair and positive quantities are kept |
| Cart.DeleteKeepsIds | backend/src/services/cart.service.ts:43 | deleting rows keeps every id below the counter |
| Cart.JoinLineMembers | backend/src/services/cart.service.ts:9 | a line joins exactly the products whose id is its product id |
| Cart.CartRowsMembers | backend/src/services/cart.service.ts:7-11 | a row is listed exactly for a line of the user whose product exists |
| Cart.NewestFirst | backend/src/services/cart.service.ts:11 | the line added last is listed before every older line |
| Cart.UpdateToZeroLeavesCart | backend/src/services/cart.service.ts:41-46 | after updating to a quantity below 1, the user's cart lists no row for that product |
| Favorites.CategoryName | backend/src/services/favorites.service.ts:7-10 | the LEFT JOIN's category is null or the name of a category with the product's `category_id` |
| Favorites.JoinFavorite | backend/src/services/favorites.service.ts:9 | one joined row per product with the favorite's product id |
| Favorites.FavoritesService.constructor | backend/src/services/favorites.service.ts:4 | the service over a favorites table with ids below the counter |
| Favorites.FavoritesService.GetFavorites | backend/src/services/favorites.service.ts:5-17 | the user's joined rows, newest first, each with `image_url` normalised |
| Favorites.FavoritesService.AddFavorite | backend/src/services/favorites.service.ts:19-26 | one row appended under the next id whatever exists; the reply holds the fresh id, user and product |
| Favorites.FavoritesService.RemoveFavorite | backend/src/services/favorites.service.ts:28-35 | every row of the pair deleted; `removed` iff there was at least one |
| Favorites.AddAlwaysInserts | backend/src/services/favorites.service.ts:19-23 | the pair gains exactly the fresh row even when already present; no other pair changes |
| Favorites.RemoveDeletesAll | backend/src/services/favorites.service.ts:28-34 | no row of the pair remains, the table shrinks by their number, an absent pair leaves it as it was, no other pair changes |
| Favorites.AddTwiceRemoveOnce | backend/src/services/favorites.service.ts:19-34 | adding a pair twice gives two rows, and one remove deletes both |
| Favorites.JoinFavoriteMembers | backend/src/services/favorites.service.ts:9 | a favorite joins exactly the products with its product id |
| Favorites.FavoriteRowsMembers | backend/src/services/favorites.service.ts:6-12 | a row is listed exactly when it is a joined row of one of the user's favorites, never another user's |
| Favorites.NewestFirst | backend/src/services/favorites.service.ts:12 | the newest favorite is listed first, and duplicates repeat |
| Favorites.CategoryNameCases | backend/src/services/favorites.service.ts:10 | the name is null with no category id, null iff no category matches, and null after that category is deleted |
| Favorites.DeleteKeepsIds | backend/src/services/favorites.service.ts:30 | deleting rows keeps every id below the counter |
| Categories.CountRows | backend/src/services/category.service.ts:24-31 | one row per category, in table order, each with its product count |
| Categories.CategoryProductRows | backend/src/services/category.service.ts:52-55 | the products whose `category_id` is the id, as many as the count |
| Categories.CategoryService.constructor | backend/src/services/category.service.ts:4 | the service over a categories table with unique ids below the counter |
| Categories.CategoryService.CreateCategory | backend/src/services/category.service.ts:5-21 | one row appended under the next id; the reply is every input field plus the id, which an input `id` overrides |
| Categories.CategoryService.GetCategories | backend/src/services/category.service.ts:23-33 | every category once, with `product_count` the number of products pointing at it |
| Categories.CategoryService.GetCategoryById | backend/src/services/category.service.ts:35-38 | exactly the rows with that id, an empty list rather than null, at most one |
| Categories.CategoryService.UpdateCategory | backend/src/services/category.service.ts:40-43 | every row with the id renamed, nothing else; the result counts the matched rows |
| Categories.CategoryService.DeleteCategory | backend/src/services/category.service.ts:45-48 | every row with the id removed, nothing else; products are not touched |
| Categories.CategoryService.GetProductsByCategoryId | backend/src/services/category.service.ts:51-58 | the category's products, each with `image_url` normalised |
| Categories.ProductsByCategoryMembers | backend/src/services/category.service.ts:53 | a product is listed iff it is in the table with that `category_id` |
| Categories.ProductRowInjective | backend/src/services/category.service.ts:53 | distinct products give distinct rows |
| Categories.CountZero | backend/src/services/category.service.ts:27-29 | the count is 0 iff no product points at the category |
| Categories.CountAppend | backend/src/services/category.service.ts:27 | one more product adds 1 to its category's count only |
| Categories.TotalCountAppend | backend/src/services/category.service.ts:27-30 | one more product adds to the total once per category it matches |
| Categories.TotalCountBound | backend/src/services/category.service.ts:27-30 | with unique category ids the counts sum to at most the number of products |
| Categories.TotalCountEmpty | backend/src/services/category.service.ts:27-30 | with no products every count, and so the total, is 0 |
| Categories.MatchesLast | backend/src/services/category.service.ts:29 | with unique ids a product matches at most the category its `category_id` names |
| Categories.UpdateCategoryEffect | backend/src/services/category.service.ts:41 | only rows with the id are renamed, and an absent id changes nothing |
| Categories.DeleteCategoryEffect | backend/src/services/category.service.ts:46 | no row with the id is left, the others remain, and each remaining category keeps its count |
| Categories.DeleteKeepsIds | backend/src/services/category.service.ts:46 | deleting rows keeps every id below the counter |
| Handlers.GetUserId | backend/src/controllers/cart.controller.ts:5-9 | a falsy user throws "Usuario no autenticado"; otherwise the id is `userId`, else `id` |
| Handlers.Catch | backend/src/controllers/cart.controller.ts:17-25 | 401 exactly for that error; any other Error is 500 with its message; a non-Error is 500 "Internal server error" |
| Handlers.Finish | backend/src/controllers/cart.controller.ts:15-16 | a returned value is sent with the handler's status; a throw goes to the catch block |
| CartController.AddQuantity | backend/src/controllers/cart.controller.ts:32 | the amount is at least 1: the number when it is at least 1, else 1 (missing, 0, NaN, negative) |
| CartController.UnauthenticatedIs401 | backend/src/controllers/cart.controller.ts:6-7 | a missing user answers 401 in all four handlers |
| CartController.InvalidProductIdIs400 | backend/src/controllers/cart.controller.ts:33-35 | a productId converting to 0 or NaN answers 400 before any service call |
| CartController.AddCallsService | backend/src/controllers/cart.controller.ts:31-37 | a valid add calls the service with the product id and the clamped amount; a missing amount becomes 1 |
| CartController.UpdateRejectsOnlyNegative | backend/src/controllers/cart.controller.ts:54-60 | only a negative quantity is refused; 0 and NaN reach the service |
| CartController.SuccessStatuses | backend/src/controllers/cart.controller.ts:16-84 | success answers 200, 201, 200 and 200 with the service's result |
| CartController.ServiceErrorIs500 | backend/src/controllers/cart.controller.ts:39-47 | a service Error answers 500 with its message; a non-Error 500 "Internal server error" |
| FavoritesController.UnauthenticatedIs401 | backend/src/controllers/favorites.controller.ts:6-7 | a missing user answers 401 in all three handlers |
| FavoritesController.ProductIdDecides | backend/src/controllers/favorites.controller.ts:31-37 | a productId converting to 0 or NaN answers 400; otherwise the service is called, and answers 201 for add and 200 for remove |
| FavoritesController.ServiceErrorIs500 | backend/src/controllers/favorites.controller.ts:17-25 | a service Error answers 500 with its message; a non-Error 500 "Internal server error" |
| Zod.StringMin | backend/src/schemas/auth.schemas.ts:5 | no issue iff the value is a string of at least n characters; at most one issue |
| Zod.StringEmail | backend/src/schemas/auth.schemas.ts:7 | no issue iff the value is a string the email check accepts |
| Zod.NumberChecks | backend/src/schemas/product.schema.ts:6 | no issue iff the number is finite, an integer when asked, and at least the minimum |
| AuthSchemas.ParseRegister | backend/src/schemas/auth.schemas.ts:4-9 | accepted iff user_name and last_name have at least 3 characters, the email is valid and the password has at least 8; the issues otherwise |
| AuthSchemas.ParseLogin | backend/src/schemas/auth.schemas.ts:11-14 | accepted iff the email is valid and the password has at least 8 characters |
| AuthSchemas.ShortFieldsRejected | backend/src/schemas/auth.schemas.ts:5-8 | a short user_name, last_name or password is reported with its own message |
| AuthSchemas.RegisterAcceptedImpliesLoginAccepted | backend/src/schemas/auth.schemas.ts:4-14 | a body register accepts is accepted by login, with the same email and password |
| ProductSchema.ImageUrlIssues | backend/src/schemas/product.schema.ts:8 | no issue iff the value is a URL string of at least 10 characters |
| ProductSchema.ProductSchemaAccepts | backend/src/schemas/product.schema.ts:3-17 | accepted iff every field bound holds and category_id or a category of 3 or more characters is present |
| ProductSchema.PriceZeroAccepted | backend/src/schemas/product.schema.ts:6 | a price of 0 passes despite the message's wording |
| ProductSchema.MissingCategoryReported | backend/src/schemas/product.schema.ts:14-17 | without either category the last issue is the refinement's, on path "category" |
| ProductSchema.FatalSkipsRefinement | backend/src/schemas/product.schema.ts:14 | when a field has the wrong type the refinement does not run |
| AuthService.UsersTable.constructor | backend/src/services/auth.service.ts:12 | the users table with ids below the counter |
| AuthService.UsersTable.Insert | backend/src/services/auth.service.ts:29-32 | one row appended under the next id |
| AuthService.UsersWithEmail | backend/src/services/auth.service.ts:15 | the query returns exactly the users with that email |
| AuthService.CheckIfUserExists | backend/src/services/auth.service.ts:14-18 | null iff no user has the email; otherwise a user with it |
| AuthService.RegisterUser | backend/src/services/auth.service.ts:20-35 | a known email fails with "User already exists" and inserts nothing; a new one inserts one row holding hash(password) |
| AuthService.LoginUser | backend/src/services/auth.service.ts:37-59 | "User not found" iff no user has the email; when the first user with the email passes `compare`, a token over that user's id and email; when it fails, "Invalid password" |
| AuthService.NewUserIsFound | backend/src/services/auth.service.ts:14-18 | after inserting a new email, the lookup finds exactly that row |
| AuthService.RegisterThenLogin | backend/src/services/auth.service.ts:20-59 | registering then logging in with the same password succeeds, with a token over the new id and email |
| AuthService.RegisterTwiceRefused | backend/src/services/auth.service.ts:21-25 | a second registration with the same email is refused |
| AuthController.CreatedBody | backend/src/controllers/auth.controller.ts:57-64 | the 201 body holds the message and user_name, last_name and email only, never the password |
| AuthController.Register | backend/src/controllers/auth.controller.ts:41-71 | 400 with the validation message; 500 on a failing call with the table unchanged; 400 for a taken email; otherwise one row with the hash and 201 |
| AuthController.Login | backend/src/controllers/auth.controller.ts:73-112 | 400 with the validation message for an invalid body; 500 when a call throws; 200 with a token over the first user with the email when `compare` accepts the password; otherwise the same 401 |
| AuthController.LoginFailuresIdentical | backend/src/controllers/auth.controller.ts:83-93 | an unknown email and a wrong password get the identical 401 |
| AuthController.RegisterThenLoginSucceeds | backend/src/controllers/auth.controller.ts:41-105 | after a registration, the same body logs in with a token over the new id and email |
| CategoryMiddleware.CheckCategory | backend/src/middlewares/category.middleware.ts:6-38 | next iff the name is a string of at least 2 characters once trimmed; a falsy name gets "required", any other refusal "at least 2"; the body handed on has the name trimmed and every other field kept |
| CategoryMiddleware.BlankNameTooShort | backend/src/middlewares/category.middleware.ts:10-19 | a name of spaces only passes the first check and fails the second |
| CategoryMiddleware.TrimmedNamePasses | backend/src/middlewares/category.middleware.ts:17-29 | a body whose name is already trimmed and long enough is handed on unchanged |
| CategoryMiddleware.CheckCategoryIdempotent | backend/src/middlewares/category.middleware.ts:26-31 | the handed-on body passes a second time unchanged |
| AuthMiddleware.TokenOf | backend/src/middlewares/auth.middleware.ts:22 | a token exists iff the header has a space, and it holds no space |
| AuthMiddleware.Authenticate | backend/src/middlewares/auth.middleware.ts:15-35 | a missing or empty header gets "Token requerido"; a present header whose second word is missing or empty gets "Token inválido"; a token that fails to verify gets "Token no válido o expirado"; every refusal is 401; next iff the second word is non-empty and verifies, with the decoded payload as the user |
| AuthMiddleware.SchemeUnchecked | backend/src/middlewares/auth.middleware.ts:22 | for any first word the second one is the token verified; "Bearer" is not checked |
| AuthMiddleware.MissingTokenInvalid | backend/src/middlewares/auth.middleware.ts:22-26 | a header without a space, or ending in its only space, gets "Token inválido" |
| CartClient.GetAuthHeaders | frontend/src/lib/cart.ts:7-18 | throws "User is not authenticated" iff there is no non-empty token; otherwise `Authorization` is "Bearer " + token and the content type is JSON |
| CartClient.HeaderCarriesToken | frontend/src/lib/cart.ts:14-17 | the server's token extraction recovers the token from "Bearer " + token |
| CartClient.Normalize | frontend/src/lib/cart.ts:45-56 | id is String(product_id ?? id), cartItemId the id, productId the product id, the rest copied |
| CartClient.GetCart | frontend/src/lib/cart.ts:73-74 | same length and order, each row normalised |
| CartClient.Plus | frontend/src/lib/cart.ts:125 | a sum is NaN iff one side is |
| CartClient.CartCount | frontend/src/lib/cart.ts:123-126 | 0 for an empty cart; NaN iff some quantity is NaN |
| CartClient.TotalQuantityAppend | frontend/src/lib/cart.ts:125 | the total of one more item grows by its quantity |
| CartClient.CartCountIsTotal | frontend/src/lib/cart.ts:123-126 | with no NaN, the left fold equals the plain total of the quantities |
| CartClient.ServerRowNormalized | frontend/src/lib/cart.ts:45-56 | a server cart row normalises to the product id as id, the line's id and quantity, and an undefined category |
| CartClient.ServerCartCountable | frontend/src/lib/cart.ts:123-126 | the count of the cart the server sends is never NaN |
| AuthClient.TokenStore.constructor | frontend/src/lib/auth.ts:15-16 | storage as found, available or not |
| AuthClient.TokenStore.GetToken | frontend/src/lib/auth.ts:90-93 | the stored token, null without one or without storage |
| AuthClient.TokenStore.SetToken | frontend/src/lib/auth.ts:95-98 | with storage the token is stored and read back; only the token key changes |
| AuthClient.TokenStore.Logout | frontend/src/lib/auth.ts:85-88 | only the token key is removed; afterwards the token is null |
| AuthClient.TokenStore.IsAuthenticated | frontend/src/lib/auth.ts:100-102 | holds iff the token is not null |
| AuthClient.ReplaceAll | frontend/src/lib/auth.ts:23 | same length; each `from` replaced and every other character kept |
| AuthClient.StandardBase64 | frontend/src/lib/auth.ts:23 | each '-' becomes '+' and each '_' becomes '/', every other character kept in place |
| AuthClient.StandardBase64Idempotent | frontend/src/lib/auth.ts:23 | rewriting twice is rewriting once |
| AuthClient.DecodeJwtPayload | frontend/src/lib/auth.ts:18-32 | null for an empty or dot-less token or a failing decode; otherwise the decoded second segment |
| AuthClient.DecodesSecondSegment | frontend/src/lib/auth.ts:20-28 | of `header.payload.signature` the payload is decoded |
| AuthClient.GetUserId | frontend/src/lib/auth.ts:104-111 | null without a token |
| AuthClient.GetUserIdCases | frontend/src/lib/auth.ts:107-110 | null without an object payload; a numeric claim as it is; a string claim through Number with 0 and NaN giving null; anything else null |
| AuthClient.ServerTokenGivesUserId | frontend/src/lib/auth.ts:109-110 | a payload with the server's `userId` claim gives back that id |
| AuthClient.UserIdFallback | frontend/src/lib/auth.ts:109-110 | a null `userId` falls back to `user_id`, and "0" counts as no id |
| ProductForm.CurrencyOf | frontend/src/components/product/ProductForm.tsx:30-35 | defined for COP, USD, EUR and GBP only; separator ',' for COP and EUR and '.' for USD and GBP; 0 decimals for COP and 2 for the others; each code's locale and symbol |
| ProductForm.InitialForm | frontend/src/components/product/ProductForm.tsx:38-46 | each text field and the price the given value when truthy, else ""; stock "" only when nullish; category_id `String(id)` when not nullish, else ""; currency USD unless a truthy one is given; an empty form for a new product |
| ProductForm.Clean | frontend/src/components/product/ProductForm.tsx:91-92 | only digits and the separator are kept, never lengthening |
| ProductForm.CleanMembers | frontend/src/components/product/ProductForm.tsx:91-92 | a character appears in the result iff it is allowed and in the input |
| ProductForm.CleanAppend | frontend/src/components/product/ProductForm.tsx:92 | cleaning distributes over concatenation |
| ProductForm.CleanKeepsAllowed | frontend/src/components/product/ProductForm.tsx:92 | text of digits and the separator is kept whole |
| ProductForm.CleanIdempotent | frontend/src/components/product/ProductForm.tsx:92 | cleaning twice is cleaning once |
| ProductForm.ReplaceFirst | frontend/src/components/product/ProductForm.tsx:97 | the length is kept and text without the pattern is unchanged |
| ProductForm.ReplaceFirstAt | frontend/src/components/product/ProductForm.tsx:97 | only the first occurrence is replaced |
| ProductForm.ReplaceFirstCounts | frontend/src/components/product/ProductForm.tsx:97 | one `from` becomes one `to` when there is a `from` |
| ProductForm.CommaPriceHasOneDot | frontend/src/components/product/ProductForm.tsx:95-98 | in a ',' currency the stored price has one '.' exactly when a ',' was typed, and one ',' fewer |
| ProductForm.DotPriceIsCleaned | frontend/src/components/product/ProductForm.tsx:95-98 | in a '.' currency the stored price is the cleaned text |
| ProductForm.PriceDisplay | frontend/src/components/product/ProductForm.tsx:103-112 | empty input clears the display; a trailing separator shows the cleaned text |
| ProductForm.ProductFormState.constructor | frontend/src/components/product/ProductForm.tsx:38-49 | the initial data, no shown price, not submitting |
| ProductForm.ProductFormState.LoadInitialData | frontend/src/components/product/ProductForm.tsx:52-72 | with a defined price and a known currency the price becomes its string and is shown with the currency's decimals; a null price throws and changes nothing |
| ProductForm.ProductFormState.HandleCurrencyChange | frontend/src/components/product/ProductForm.tsx:79-83 | the new currency, stored and shown price cleared, submit disabled |
| ProductForm.ProductFormState.HandlePriceChange | frontend/src/components/product/ProductForm.tsx:85-113 | an unknown currency throws with nothing changed; otherwise price is the stored form of the cleaned text and the display follows `PriceDisplay`; submit is disabled iff submitting, no name, or nothing left after cleaning |
| ProductForm.NewFormDisabled | frontend/src/components/product/ProductForm.tsx:38-46 | a new product's form is in USD with name and price empty |
| ProductForm.EuroStored | frontend/src/components/product/ProductForm.tsx:91-98 | "12,50" in euros passes the cleaning unchanged and is stored as "12.50" |
| ProductForm.EuroExample | frontend/src/components/product/ProductForm.tsx:103-110 | "12,50" in euros, ending in a digit, is shown as the de-DE rendering of 12.5 |

## Left out

- Database failures are not modelled in the services, and a thrown query error is not modelled in the controllers' plans. The auth controller is the exception: its `fails` input stands for a failing query or bcrypt call.
- AuthService.UsersWithEmail: `WHERE email = ?` is modelled as exact string equality. The column's collation is not part of this model; under MySQL's usual case-insensitive collations, other spellings of the same address would also match. The duplicate check in `registerUser` and `register` and the lookup in `loginUser` and `login` inherit this.
- Products.ProductService.UpdateProduct, Products.ProductService.DeleteProduct, Categories.CategoryService.UpdateCategory and Categories.CategoryService.DeleteCategory: return only the `affectedRows` count. The services return the whole `db.query` result, a result header together with the field list. The count is the number of matched rows only because mysql2 connections report found rows by default; a connection without that flag would count only rows whose values changed. The cart's `updateQuantity` reads the same count.
- The read-then-write race in `addToCart`, and connection-pool behaviour, are concurrency. Every operation is modelled as sequential.
- `created_at` order is modelled as insertion order. Rows inserted within the same timestamp, whose relative order MySQL leaves open, are not distinguished.
- The `GROUP BY` order of `getCategories` is modelled as table order.
- Column types come back as the model's values, e.g. `price` as a number. The driver's representation, such as a DECIMAL returned as a string, is not modelled.
- `registerUser` passes `validatedData.role`, which the register schema does not have, so the `role` column receives NULL. The model has no `role` column.
- bcrypt's random salt is not modelled: `hash` is a fixed function, and `compare` is a separate parameter. Properties that need compare to accept a password against its own hash state that as a precondition.
- The number conversions are not modelled in JavaScript's finest detail:
  - infinities;
  - the UTF-16 length of strings with astral characters;
  - the exact text of zod's error message, which is a parameter;
  - `Intl.NumberFormat`, `parseFloat` and `toFixed`.
- The cart controller's quantity is a JavaScript number, while the service's quantity column is an integer. The model does not bridge the two: a fractional or NaN amount that `updateQuantity` lets through is shown only as reaching the service call.
- The service's default `quantity = 1` is not a separate case. The controller always passes an amount.
- The `catch` blocks of the category middleware are not modelled: nothing in their `try` blocks can throw.
- `product.middleware.ts`, the routes, `products.controller.ts`, `category.controller.ts` and `role.middleware.ts` are not part of this model. The last is commented out.
- The cart client's `fetch` calls, its `cartUpdated` event and `subscribe` are browser I/O. So are the auth client's `register` and `login`.
- CartClient.CartCount: requires every quantity to be a number, as the `CartItem` type declares. JavaScript's `+` on a string quantity (concatenation) or a null one is not modelled.
- CartClient.Normalize: reads fields of any value as `undefined` when it is not an object. In JavaScript, reading a field of null throws.
- ProductForm.CurrencyOf: treats every code outside the four as missing. A property inherited by plain objects, such as `toString`, is not modelled.
- The product form's `handleChange`, `handlePriceBlur`, `handleSubmit` and rendering are not part of this model.
- Categories.CategoryService.CreateCategory: requires `name` to be a string, which the category middleware ensures before the service runs.

Where the intended behaviour and the code differ, the model follows the code:
- `category` text is stored verbatim, and no category row is looked up or created.
- There is no ownership check on product update or delete.
- Favorites have no duplicate guard, and `removeFavorite` answers `removed: false` when no row matched.
- An `id` in the body of `createProduct` or `createCategory` overrides the fresh id in the reply.
- The cart the server sends carries no `category`, although the client's `CartItem` type declares one.
