# AnimeHeaven backend: user and episode handlers in Dafny

This project models the request-level logic of two controllers of the
AnimeHeaven REST backend. The database queries are replaced by operations on
an in-memory table. Everything is proved about that model.

- **Users** (`user_controller.dfy`, module `UserController`).
  - The `profil_adatlap` table is a map from the auto-increment id to a row.
    A row has `email`, `felhasznalonev`, `jelszo` (the stored hash), `salt`,
    `profilkep` and `jogosultsag`.
  - `GET /api/users` and `GET /api/users/:id` only read, so they are functions
    of the table.
  - `POST`, `PUT` and `DELETE` write, so they are methods of the class
    `UserStore`. The class owns the table and the next auto-increment id.
  - `bcrypt.hash` is the store's `hash` field: any total function from
    strings to strings. Lemmas that need it injective say so with `Injective`.
  - Each salt from `bcrypt.genSalt` is a fresh value passed in by the caller.
- **Episodes** (`episode_controller.dfy`, module `EpisodeController`). The
  lookup `GET /api/episodes/anime/:animeId` is a pure function of the episode
  rows. It keeps the rows of one anime, sorts them by `sorrend` and answers
  404 when none are left. It never changes the rows.
- **Shared shapes** (`http.dfy`, module `Http`): status codes and optional
  request fields (`Field`: absent, or sent with a value). It also defines
  JavaScript truthiness of string fields, flat JSON values and the
  `{ success, data | count | message | error }` response bodies.

Request bodies are typed records: each column is either absent or sent with a
value of the column's type. `updateUser` hands `req.body`, unfiltered, to `user.update`,
so the body type also has a `salt` field. The model keeps these
behaviours of the code as written:

- An update with `jelszo: ""` is not hashed, because the test is truthiness.
  The empty string is then stored as the password (`UpdateEmptyPasswordStoredRaw`).
- An update without a truthy `jelszo` stores any `salt` the client sends
  (`UpdateStoresClientSalt`).
- The update handler does not check any field, so it may store an empty
  `email` or `felhasznalonev`.

## Model

| member | source | states |
|---|---|---|
| `EpisodeController.OfAnime` | controllers/episodeController.js:91-92 | every returned row has the requested `anime_id`, and every row of that anime is kept as often as it occurs |
| `EpisodeController.SortBySorrend` | controllers/episodeController.js:93 | the result is ordered by `sorrend` ascending and is a permutation of the input |
| `EpisodeController.GetEpisodesByAnimeId` | controllers/episodeController.js:87-119 | 404 with `success: false` and the fixed message iff no row has that `anime_id`; otherwise 200 with exactly that anime's rows, sorted by `sorrend`, and `count` equal to their number |
| `EpisodeController.EveryEpisodeReturned` | controllers/episodeController.js:91-93 | any row of the anime makes the answer 200, and that row is in it: no limit or offset applies |
| `EpisodeController.CountIsNumberOfEpisodes` | controllers/episodeController.js:115-119 | on success `count` equals the number of rows of that anime in the table |
| `UserController.RedactionMatchesExclusion` | controllers/userController.js:258-260 | deleting `jelszo` and `salt` from `toJSON()` (create, update) gives exactly the projection the readers request with `exclude` (lines 83 and 147), and that projection has no credential key |
| `UserController.AscendingIds` | controllers/userController.js:84 | the table's ids, each once, in strictly ascending order |
| `UserController.Page` | controllers/userController.js:80-82 | SQL `LIMIT`/`OFFSET`: skips `offset` elements and keeps at most `limit` of the rest, in order |
| `UserController.GetAllUsers` | controllers/userController.js:76-91 | 200; item `i` is the public view of the `(offset+i)`-th smallest id; at most `limit` items, `count` equals their number, no item carries `jelszo` or `salt`; `limit` defaults to 50 and `offset` to 0 |
| `UserController.ListedInAscendingIdOrder` | controllers/userController.js:84 | listed users have strictly increasing `id` values |
| `UserController.EveryUserListed` | controllers/userController.js:80-85 | with offset 0 and a limit at least the table size, every user is listed |
| `UserController.DefaultPage` | controllers/userController.js:78 | without query parameters, the first `min(50, size)` users by id are listed |
| `UserController.GetUserById` | controllers/userController.js:142-160 | 200 iff the id is in the table, and then the row's public view; otherwise 404 with the not-found message; never a credential key |
| `UserController.CreateStoresHash` | controllers/userController.js:242-255 | a created row stores `hash(jelszo)` and the fresh salt, never the body's own salt, plus the sent email and username |
| `UserController.CreateDefaults` | controllers/userController.js:253-254 | `profilkep` is null iff it was absent, null or empty, and otherwise holds the sent value; `jogosultsag` is the sent value, or 0 when absent |
| `UserController.DistinctPasswordsDistinctHashes` | controllers/userController.js:243 | with an injective hash, users created with different passwords store different hashes |
| `UserController.UpdateWithoutPasswordKeepsCredential` | controllers/userController.js:353-359 | an update sending neither `jelszo` nor `salt` leaves the stored hash and salt unchanged |
| `UserController.UpdateRehashes` | controllers/userController.js:353-356 | a truthy `jelszo` is stored as `hash(jelszo)` with the fresh salt, whatever salt the body sent |
| `UserController.UpdateEmptyPasswordStoredRaw` | controllers/userController.js:353-359 | `jelszo: ""` skips hashing and `""` itself is stored as the password; the salt is then the body's or the old one |
| `UserController.UpdateStoresClientSalt` | controllers/userController.js:341-359 | without a truthy `jelszo`, a `salt` sent in the body is written to the row |
| `UserController.UpdateOverwritesOnlySent` | controllers/userController.js:359 | every sent column among email, username, `profilkep` and `jogosultsag` is overwritten; every unsent one keeps its value |
| `UserController.EmptyUpdateIsIdentity` | controllers/userController.js:359 | an update with an empty body leaves the row as it was |
| `UserController.UpdateIdempotent` | controllers/userController.js:353-359 | repeating an update whose `jelszo` is absent or empty changes nothing more |
| `UserController.NewPasswordChangesHash` | controllers/userController.js:353-356 | with an injective hash, a new password different from the old one changes the stored hash |
| `UserController.GetAfterDelete` | controllers/userController.js:434-439 | after removing an id, looking it up gives 404, and looking up any other id gives the same answer as before |
| `UserController.UserStore.CreateUser` | controllers/userController.js:230-265 | without a truthy email, username and password: 400 and no write; otherwise the created row goes in under a new id, and 201 carries its public view, which a later lookup returns unchanged; no credential key in the response |
| `UserController.UserStore.UpdateUser` | controllers/userController.js:338-369 | unknown id: 404 and no write; otherwise only that row changes, to the updated record, and 200 carries its public view, which a later lookup returns; no credential key in the response |
| `UserController.UserStore.DeleteUser` | controllers/userController.js:421-439 | unknown id: 404 and no write; otherwise exactly that row is removed, 200 carries the confirmation message, and a later lookup of that id gives 404 |

## Left out

- Express wiring in `server.js` is left out: CORS, logging middleware, the generic 404 and 500 handlers, `startServer` and `process.exit`. This is start-up I/O. The health handler returns a constant and a clock reading.
- `config/database.js` (the connection pool and `testConnection`) is left out. It is a network ping.
- The route tables are left out. They only map paths to handlers, and the anime controller is not part of this model.
- The 500 paths are left out: exceptions thrown by the database or by bcrypt, with their `details: error.message` bodies, and all `console` logging.
- `async`/`await` and concurrent requests are left out. Each handler is modelled as one atomic step on the table.
- bcrypt internals are not modelled: the cost factor 10 passed to `hash` and `genSalt`, the salt embedded in the hash, and real randomness. The hash is an arbitrary function and each salt a caller-supplied value.
- UserController.UpdateIdempotent: promised only for updates without a truthy `jelszo`. With a truthy `jelszo` each request draws a new bcrypt salt inside the hash and a new `genSalt` value, so a repeat rewrites both columns.
- The health handler in `server.js` has no uptime report or database check, so the model has none.
- The `profil_adatlap` model definition is not part of this model. The row's columns are taken from the controller's own use. Sequelize timestamps or other columns `toJSON()` might add are not modelled.
- Request values are typed. A request cannot send an `id` key, a `null` for a non-null column, or a value of another JSON type. In particular `parseInt` failure (NaN) is not modelled: `limit` and `offset` are naturals.
- The nested `include` of `forras_elem` and `forras_tipus` in the episode lookup is not modelled. Episodes are returned as plain rows.
- Ties in `sorrend` are not pinned down. The sort keeps input order for rows with equal `sorrend`. SQL leaves that order unspecified, so the contract promises only sortedness and permutation.
