# teslo-shop core in Dafny

This project models the statable logic of the teslo-shop NestJS backend. The rest of that application is plumbing for the ORM, sockets, JWT and uploads. The modelled pieces are:

- **Connected-client registry** (`MessagesWsService`). An insertion-ordered map from socket id to `{socket, user}`, written as a sequence of `Client` entries (`Registry`). Registration looks the user up and refuses a missing or inactive one. It then names the *first* socket, in key order, that already belongs to the user; that socket is told to disconnect. Finally it stores the new socket. The displaced entry stays in the map until the transport reports the disconnect and `removeClient` runs.
- **Chat gateway** (`MessagesWsGateway`). Each handler is a transition `(registry, event) -> (registry', effects)`, where the effects are socket disconnects and broadcasts in order (`Gateway`).
- **Entity hooks.** The slug normalisation of `Product` (`Slug`) and the e-mail normalisation of `User` (`Users`). These rest on ASCII case mapping, the exact JavaScript `trim` whitespace set, and `split` (`Text`).
- **Upload filter** (`FileFilter`). The MIME-subtype rule.
- **Catalogue rules** (`ProductsService`, in `Products`). These cover:
  - `create`, `findAll`, `findOne`, `findOnePlain`, `update` and `remove`, over an in-memory table of products in row order;
  - the unique constraints on `title` and `slug`, reported with Postgres' code `23505` and its `Key (col)=(value) already exists.` detail;
  - `handleDBExceptions`.

Things outside the model are parameters:

- the JWT check is a function `verify: string -> Option<JwtPayload>`;
- the `uuid` package's `validate` is a function `isUuid: string -> bool`;
- the users table is a sequence of `User` rows;
- the id the database generates on insert is `newId`;
- any driver failure other than a unique violation is `fault`.

Every handler runs as one atomic step.

Three consequences of the code are easy to miss, and the model keeps them:

- Displacing a user's earlier socket does not remove its entry. Right after a registration the user can hold two entries (`Registry.DisplacedEntryLingers`). One session per user is restored only once the transport reports the disconnect (`Registry.RegisterThenSettle`, `Gateway.ConnectionSettlesToSingleSession`).
- `registerClient` is not awaited. When the user is missing or inactive, its rejection escapes the `try`/`catch`. So the socket is *not* disconnected, the registry is unchanged, and the roster is still broadcast. The model records the escaped rejection as an `Unhandled` effect.
- A chat message from a socket that is not registered makes `getUserFullName` throw. The model records this as a `SenderUnknown` effect, and nothing is broadcast.

## Model

| member | source | states |
|---|---|---|
| Seqs.FirstIndex | src/messages-ws/messages-ws.service.ts:55-62 | The position of the first element passing a test, and none when no element passes; this models a loop that stops at the first match. |
| Seqs.FirstIndexAgrees | src/products/products.service.ts:76-82 | Two tests that agree on every element pick the same first row. |
| Text.ToLower | src/auth/entities/user.entity.ts:42 | `toLowerCase` keeps the length, maps each capital to its lower-case letter, keeps every other character, and leaves no capital. |
| Text.ToUpper | src/products/products.service.ts:78 | `toUpperCase` keeps the length, maps each lower-case letter to its capital, and keeps every other character. |
| Text.UpperEqIffLowerEq | src/products/products.service.ts:77-79 | Two strings are equal after upper-casing exactly when they are equal after lower-casing. |
| Text.Trim | src/auth/entities/user.entity.ts:42 | `trim` returns a string with no whitespace at either end, and the input is that string padded with whitespace only. |
| Text.TrimUnique | src/auth/entities/user.entity.ts:42 | Any string that has no surrounding whitespace and, padded with whitespace, gives `s` is `trim(s)`. |
| Text.TrimLowerCommute | src/auth/entities/user.entity.ts:42 | Lower-casing and trimming commute. |
| Text.Split | src/files/helpers/fileFilter.helper.ts:6 | `split` yields at least one part. It yields exactly `[s]` when the separator is absent and two or more parts otherwise. No part contains the separator, the first part runs up to the first separator, and joining the parts gives `s` back. |
| Text.SplitJoin | src/files/helpers/fileFilter.helper.ts:6 | Splitting the join of separator-free parts gives the parts back. |
| Users.NormalizeEmail | src/auth/entities/user.entity.ts:42 | The normalised address has no capital and no surrounding whitespace. It is the lower-cased input with whitespace stripped from both ends. |
| Users.NormalizeEmailIdempotent | src/auth/entities/user.entity.ts:42 | Normalising twice is normalising once. |
| Users.CheckFieldsBeforeInsert | src/auth/entities/user.entity.ts:40-43 | The insert hook leaves a normal e-mail and changes no other column. |
| Users.CheckFieldsBeforeUpdate | src/auth/entities/user.entity.ts:45-48 | The update hook leaves a normal e-mail and changes no other column. |
| Users.HooksAgree | src/auth/entities/user.entity.ts:40-48 | Both hooks compute the same function, and a second save through either changes nothing. |
| Users.FindUserById | src/messages-ws/messages-ws.service.ts:26 | The lookup gives none exactly when no row has the id; otherwise a row with that id. |
| Slug.ReplaceSpaces | src/products/entities/product.entity.ts:127 | Replacing `' '` by `_` keeps the length, turns every space into `_`, leaves no space, and keeps every other character in place. |
| Slug.DropApostrophes | src/products/entities/product.entity.ts:128 | Removing `'` leaves none and shortens the string by the number of apostrophes. Every other character is kept in order: the one at position `k` moves to `k` minus the apostrophes before it. |
| Slug.NormalizeSlug | src/products/entities/product.entity.ts:125-128 | The normalised slug has no space, no apostrophe and no capital. Its length is the input's minus its apostrophes. A slug already in that form is returned unchanged. |
| Slug.NormalizeSlugIdempotent | src/products/entities/product.entity.ts:125-128 | Normalising twice is normalising once. |
| Slug.NormalizeMatchesPerChar | src/products/entities/product.entity.ts:125-128 | The three-pass pipeline equals a per-character rewrite: capitals become lower-case, a space becomes `_`, `'` disappears. |
| Slug.CheckSlugInsert | src/products/entities/product.entity.ts:119-130 | On insert, a missing or empty slug is replaced by the title, and the result is normalised. |
| Slug.CheckSlugUpdate | src/products/entities/product.entity.ts:132-138 | On update, the slug is normalised with no title fallback. |
| Slug.InsertAndUpdateHooks | src/products/entities/product.entity.ts:119-138 | For a non-empty slug the two hooks agree. An empty slug stays empty on update, and on insert it is treated like a missing one. |
| FileFilter.Extension | src/files/helpers/fileFilter.helper.ts:6 | The examined extension is undefined exactly when the MIME type has no `/`. Otherwise it is the text after the first `/`, up to the next `/` or the end. |
| FileFilter.Filter | src/files/helpers/fileFilter.helper.ts:1-14 | Exactly one callback. A missing file gives `('File is empty', false)`. Otherwise there is no error, and the file is accepted exactly when the extension is one of `jpeg`, `jpg`, `png`, `gif`. |
| FileFilter.NoSlashRejected | src/files/helpers/fileFilter.helper.ts:9-11 | A MIME type without `/` is rejected with no error. |
| FileFilter.DecidedBySubtype | src/files/helpers/fileFilter.helper.ts:6-13 | For `type/subtype`, acceptance depends on the subtype alone, compared exactly. |
| FileFilter.LaterSegmentsIgnored | src/files/helpers/fileFilter.helper.ts:6 | Anything after a second `/` does not affect the decision. |
| FileFilter.AcceptsPng | src/files/helpers/fileFilter.helper.ts:7-13 | `image/png` is accepted. |
| FileFilter.RejectsUpperCasePng | src/files/helpers/fileFilter.helper.ts:7-11 | `image/PNG` is rejected: matching is case-sensitive. |
| Registry.Keys | src/messages-ws/messages-ws.service.ts:43-45 | The key list has one key per entry, in entry order. |
| Registry.Lookup | src/messages-ws/messages-ws.service.ts:49 | A lookup finds nothing exactly when the id is not a key. |
| Registry.LookupAt | src/messages-ws/messages-ws.service.ts:49 | In a valid map, looking up an entry's key gives that entry's user. |
| Registry.Put | src/messages-ws/messages-ws.service.ts:33-36 | After the assignment the socket maps to the new user and every other key keeps its user. The map stays valid. An existing key keeps its place, and a new key is appended. |
| Registry.Remove | src/messages-ws/messages-ws.service.ts:39-41 | `delete` leaves the id unmapped and every other key unchanged. Deleting an absent key changes nothing. |
| Registry.RemoveValid | src/messages-ws/messages-ws.service.ts:39-41 | Deleting keeps the keys distinct. |
| Registry.RemoveKeepsOrder | src/messages-ws/messages-ws.service.ts:39-41 | Deleting the entry at position `i` leaves the other entries in their order. |
| Registry.ConnectedClients | src/messages-ws/messages-ws.service.ts:43-45 | The roster lists each registered socket once, exactly the mapped ones, in insertion order. |
| Registry.UserFullName | src/messages-ws/messages-ws.service.ts:48-50 | For a registered socket, the name is the `fullName` of the user stored under it. |
| Registry.CheckUserConnection | src/messages-ws/messages-ws.service.ts:52-63 | The displaced socket is the first entry, in key order, whose user has the id. There is none when no entry matches. |
| Registry.CheckUserConnectionFindsOwner | src/messages-ws/messages-ws.service.ts:55-62 | The displaced socket is registered for that user, and when nothing is displaced no socket is registered for the user. |
| Registry.RegisterClient | src/messages-ws/messages-ws.service.ts:25-37 | An unknown user gives `User not found` and an inactive one gives `User is not active`, with the map untouched. Otherwise the socket maps to the user, every other entry is kept (the displaced one included), and key order follows `Put`. At most one socket, the first match, is displaced. |
| Registry.DisplacedEntryLingers | src/messages-ws/messages-ws.service.ts:31-36 | Right after displacing another socket, both it and the new socket are registered for the user, so one session per user does not hold yet. |
| Registry.RegisterThenSettle | src/messages-ws/messages-ws.service.ts:25-41 | If each user had at most one socket before, that holds again once the displaced socket is removed. |
| Registry.RemoveKeepsSingleSession | src/messages-ws/messages-ws.service.ts:39-41 | Removal never creates a second session. |
| Gateway.MessageText | src/messages-ws/messages-ws.gateway.ts:67 | A missing or empty message becomes `Empty message`; any other message passes through unchanged. |
| Gateway.AfterRegistration | src/messages-ws/messages-ws.gateway.ts:27-35 | A successful registration produces exactly a disconnect of the displaced socket, when there is one, followed by one `connected-clients` broadcast of the resulting map. A failed registration leaves the map and the socket alone and produces exactly the unhandled rejection followed by the broadcast. |
| Gateway.HandleConnection | src/messages-ws/messages-ws.gateway.ts:20-39 | A token that does not verify disconnects the client, with no roster and the map unchanged. Otherwise registration runs with `payload.id`, followed by the broadcast. |
| Gateway.HandleDisconnect | src/messages-ws/messages-ws.gateway.ts:41-46 | The socket's entry is spliced out where it stood, so the other entries keep their order, and an unknown socket leaves the map as it was. One `connected-clients` broadcast follows, listing the remaining sockets in that order and no longer naming this one. |
| Gateway.HandleMessage | src/messages-ws/messages-ws.gateway.ts:48-69 | Exactly one `message-from-server` goes to all sockets, named after the sender's registered user. The registry is untouched. |
| Gateway.MessagesKeepRegistry | src/messages-ws/messages-ws.gateway.ts:48-69 | Any run of chat messages leaves the registry as it was. |
| Gateway.ConnectionSettlesToSingleSession | src/messages-ws/messages-ws.gateway.ts:20-46 | A connection, followed by the disconnects it triggers, keeps at most one socket per user. |
| Products.HandleDBExceptions | src/products/products.service.ts:152-159 | Code `23505` becomes a 400 carrying the driver's detail. Every other error becomes the generic 500. |
| Products.Urls | src/products/products.service.ts:62 | Flattening keeps the number and order of the images and replaces each by its url. |
| Products.ToImages | src/products/products.service.ts:35 | One image row per url, in order; flattening them gives the urls back. |
| Products.ImagesRoundTrip | src/products/products.service.ts:60-63 | Flattening image rows and rebuilding them gives the same rows. |
| Products.View | src/products/products.service.ts:60-63 | A returned product keeps every column of the row (id, title, description, slug, stock, sizes, gender, tags), carries its image urls in order, and has its owner exactly when the row was loaded with its eager relations. |
| Products.FindAll | src/products/products.service.ts:48-64 | `limit` defaults to 10 and `offset` to 0. At most `limit` products are returned, starting at row `offset`, in order, with image urls in place of rows. |
| Products.ConsecutivePages | src/products/products.service.ts:50-58 | Two consecutive pages of `limit` rows make the page of `2 * limit` rows at the same offset: paging neither skips nor repeats a row. |
| Products.Matches | src/products/products.service.ts:70-82 | A UUID term matches by id alone. Any other term matches a row whose title equals it up to letter case, or whose slug equals its lower-cased form. |
| Products.FindOne | src/products/products.service.ts:66-89 | Fails with `Product not found` exactly when no row matches the term. Otherwise it returns the first matching row. A UUID term matches by id alone. Any other term matches on the upper-cased title or the lower-cased slug. |
| Products.FindOnePlain | src/products/products.service.ts:91-97 | The same product as `findOne`, or the same error, with every column kept and its images flattened to urls in order. The owner is present exactly when the term is a UUID: the query-builder path does not load the eager `user` relation. |
| Products.FindOneIgnoresCase | src/products/products.service.ts:76-82 | Two non-UUID terms that differ only in letter case find the same product. |
| Products.FindOneById | src/products/products.service.ts:70-71 | In a keyed table, a UUID term finds exactly the row with that id. |
| Products.FindOneBySlug | src/products/products.service.ts:76-82 | In a keyed table, looking a product up by its own non-UUID slug always finds a row. That row is the product itself, or an earlier one whose title equals the slug up to case. When no title equals the slug up to case, it is exactly the product. |
| Products.UniqueViolation | src/products/entities/product.entity.ts:22-24 | A save violates a unique constraint exactly when another row has the same title or slug. The title is reported first, with Postgres' detail text. |
| Products.NewProduct | src/products/products.service.ts:31-37 | A new product has the generated id, the caller as owner, the body's title, description, sizes and gender, its stock and tags with the column defaults 0 and `[]`, image rows for the given urls (none by default), and the insert hook's slug. |
| Products.Create | src/products/products.service.ts:27-46 | Any failure leaves the table as it was: a driver fault is classified, and a duplicate title or slug gives a 400 with the detail. Success appends exactly the new row and answers with it, its `images` being the url list given. |
| Products.DuplicateTitleRejected | src/products/products.service.ts:38-44 | Creating a product whose title another row already has fails with a 400 carrying `Key (title)=(<title>) already exists.`, and nothing is stored. |
| Products.CreateKeepsKeyed | src/products/products.service.ts:27-46 | With a fresh id, no clashing title or slug and no driver fault, creating succeeds and keeps ids, titles and slugs unique and slugs normalised. |
| Products.CreateThenFind | src/products/products.service.ts:27-46 | A create with a fresh UUID id and no clash succeeds, and `findOnePlain` on the new id then gives back exactly what `create` answered. |
| Products.Edit | src/products/products.service.ts:101-129 | Each present field (title, description, slug, stock, sizes, gender, tags) replaces the stored one, and each absent field keeps it. Images are replaced by the given urls when `images` is present and kept otherwise. The caller becomes owner, and the resulting slug goes through the update hook. |
| Products.RowOf | src/products/products.service.ts:104-107 | The preload finds the row with the id, or nothing exactly when no row has it. |
| Products.SaveEdited | src/products/products.service.ts:110-141 | A fault or a unique violation leaves the table unchanged and is classified. Success rewrites only that row and answers with `findOnePlain(id)`. |
| Products.Update | src/products/products.service.ts:99-142 | An unknown id gives `Product not found`. Otherwise the edited row goes through the transaction. |
| Products.UpdateKeepsKeyed | src/products/products.service.ts:99-142 | An update of a present row with no clashing title or slug and no driver fault succeeds and keeps ids, titles and slugs unique and slugs normalised. |
| Products.UpdateAnswersEdited | src/products/products.service.ts:117-134 | With a UUID id of a present row, no clash and no fault, the update succeeds and answers with the edited product. Its images are the sent urls when `images` was present and the stored ones otherwise. |
| Products.Remove | src/products/products.service.ts:144-150 | Fails like `findOne`. Otherwise it deletes exactly the row `findOne` finds, and the others keep their order. |

## Left out

- Event-loop scheduling. Each handler is one atomic step. `registerClient` is not awaited and always suspends on the user lookup before it disconnects or stores anything. So the real roster broadcast always runs first: it never lists the new socket, and the displaced socket is closed after it. The model stores first and broadcasts second.
- Socket.io, TypeORM repositories, query builders and the query runner. The transaction is one step that either commits or leaves the table unchanged. Releasing the query runner is not modelled. `update` returns `findOnePlain(id)` without awaiting it, so a failure there rejects past the `catch`, after the commit: the table keeps the edit and the caller gets `Product not found`, as `Products.SaveEdited` answers with `Updated(after, Err(..))`.
- Products.SaveEdited: the `@BeforeUpdate` hook is applied on every save. TypeORM runs it only when it detects a change, and that differs only when the stored slug is not normal, which `Products.Keyed` excludes.
- Products.UniqueViolation: when both the title and the slug clash, Postgres reports whichever index it checks first; the model always reports the title.
- Products.FindOne: returns the stored row including its `user`. On the query-builder path (a non-UUID term) the source's entity has no `user`, because that path does not load eager relations; only `Products.FindOnePlain` shows this, by leaving the owner out.
- Products.Update: an id that is not UUID syntax is answered `Product not found` like any unknown id. In the source the primary key is a Postgres `uuid` column, so `preload` fails with a driver error before the `try`, and the caller gets a 500. The model has no notion of column types.
- Users.FindUserById: a user id that is not UUID syntax gives no row. In the source the `uuid` primary key makes the lookup fail with a driver error instead; `registerClient` rejects either way.
- Products.FindOne: row order stands for the database's unspecified order for `getOne` and `find` without `ORDER BY`. Ids are compared as exact strings, although Postgres' `uuid` type ignores case.
- Products.FindAll: `limit` and `offset` are whole numbers. The pagination body's validator only admits a positive `limit` and a non-negative `offset`; fractional values are not modelled.
- Text.ToLower and Text.ToUpper: ASCII letters only. JavaScript's full Unicode case mapping is not modelled.
- Object key order: `Object.keys` puts integer-like keys first. Socket ids are not integer-like, so the registry keeps plain insertion order.
- JWT signing and verification, and bcrypt. JWT verification is the `verify` parameter; the rest of `auth.service.ts` and the JWT strategy are not part of this model.
- The `price` column (a float), `files.service.ts`, multer storage, the seed service, `deleteAllProducts` and `seedProducts`.
- The class-validator decorators of the DTOs. The model admits any value of the right shape.
- `update-product.dto.ts` and `products.controller.ts` are not part of this model. The update body is taken to be every member of the create body made optional.
- Logging: `console.log` and `Logger.error`.
