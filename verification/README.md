# MyMarket: accounts, sessions and listings

A Dafny model of the logic of MyMarket, a small Flask marketplace. Visitors
register and log in. Logged-in users list items for sale, browse and search
the listings, and delete listings. The model covers:

- the registration, login and item form validators (`app/forms.py`), as pure
  functions over the submitted strings and the user table;
- the schema (`app/models.py`): the `User` row, whose password hash and
  last-seen time are updated in place, so it is a class; the `Item` row, a
  value; the unique and non-null column constraints; password hashing; the
  user loader;
- the request handlers (`app/routes.py`), as a `Market` object that holds
  the `user` table, the `item` table and the login session. Handlers that
  change this state are methods. Handlers that only read it are functions.
  Every method keeps the schema constraints (`Market.Valid`) and states
  exactly what its new state is.

Modules, one per source file plus two helpers:

- `Wrappers` holds `Option`.
- `Strings` holds what the code uses of Python strings: the `\d`, `[A-Z]`,
  `[a-z]` and `\W` classes, `re.search` over one class, `isalnum`, `lower`
  and substring containment.
- `Models`, `Forms` and `Routes` follow `app/models.py`, `app/forms.py` and
  `app/routes.py`.

Pieces that are not Python code are parameters:

- `kdf` is the key-derivation function of `generate_password_hash` and
  `check_password_hash`. A stored hash is a salt and a digest. The random
  salt is an argument of `Register`.
- `netloc` is the network-location part of `url_parse`.
- `emailSyntax` is the WTForms `Email()` validator.
- The clock is a `nat` argument of `BeforeRequest`. The `last_seen` column
  default is the constant `lastSeenDefault`. The source writes
  `default=datetime.utcnow()`, so that value is taken once, when the model
  is imported, and not on each insert.
- A redirect is modelled by its destination. A flashed message is modelled
  by a tag.

Behaviour of the code that the model keeps:

- Primary keys follow SQLite's rule for an INTEGER key: one more than the
  largest key present, or 1 for an empty table. A key freed by deleting the
  newest item is given out again.
- An item name already in the table fails at commit (a unique-constraint
  error). Deleting a missing key calls `delete(None)` and raises. Both are
  `ServerError`, and nothing changes.
- The "required" check on the price refuses `0` as well as a missing value.
- A failed login redirects to the plain login page. Any `next` argument is
  dropped.
- Deletion has no ownership check. Any logged-in user can delete any item.

Facts about the code that a reader might not expect:

- The password check at `app/forms.py:57` requires at least 8 characters,
  while the error message at `app/forms.py:75` says "at least 7".
- The symbol rule is `\W`. A space or other whitespace counts as a symbol.
  The underscore does not.
- `delete_item` (`app/routes.py:141-147`) checks no owner.
- `register` does not handle an `IntegrityError` raised at commit. Requests
  are sequential here, so for users the pre-checks are the whole story.

## Model

| member | source | states |
|---|---|---|
| `Strings.ReSearch` | app/forms.py:60-69 | `re.search` with one character class: None exactly when no character is in the class; otherwise the leftmost matching position |
| `Forms.CheckPasswordStrength` | app/forms.py:56-69 | each of the five flags is set exactly when its rule fails: length < 8, no digit, no `[A-Z]`, no `[a-z]`, no `\W` character |
| `Forms.ValidatePassword` | app/forms.py:45-75 | accepts iff length ≥ 8 and there is a digit, an upper-case letter, a lower-case letter and a non-word character; any failure gives the one combined error |
| `Forms.StrongPasswordExamples` | app/forms.py:57-72 | "Abcdef1!" passes, and "Abc ef1x" passes because whitespace is `\W` |
| `Forms.NoSymbolPasswordExamples` | app/forms.py:69 | "Abcdefg1" and "Abc_ef1x" fail: letters, digits and `_` are word characters |
| `Forms.LowercaseOnlyPasswordExample` | app/forms.py:57-69 | "abcdefgh" fails the digit, upper-case and symbol checks and passes the other two |
| `Forms.ValidateUsername` | app/forms.py:27-36 | reports "taken" iff a stored username equals the input exactly; otherwise "too short" iff length < 4; otherwise "not alphanumeric" iff not `isalnum`; accepts iff none applies |
| `Forms.UsernameExamples` | app/forms.py:33-36 | "ab1" is too short; "ab12" is accepted when not taken |
| `Forms.ValidateEmail` | app/forms.py:39-42 | refused iff some stored email equals the lower-cased input |
| `Forms.EmailTakenCaseInsensitive` | app/forms.py:40-42 | with stored emails lower-cased, an input is taken iff it equals a stored email up to letter case |
| `Forms.CaseVariantEmailsCollide` | app/forms.py:40 | "A@B.com" lower-cases to "a@b.com" |
| `Forms.SecondRegistrationSameEmail` | app/forms.py:39-42 | after "A@B.com" is stored, a registration with "a@b.com" is refused as taken, whatever its username |
| `Forms.UsernameErrors` | app/forms.py:19-36 | the username field passes iff it is non-empty and `validate_username` accepts it |
| `Forms.EmailErrors` | app/forms.py:20-42 | the email field passes iff it is non-empty, well formed and not taken |
| `Forms.PasswordErrors` | app/forms.py:21 | the password field passes iff it is non-empty and strong |
| `Forms.Password2Errors` | app/forms.py:22-23 | the confirmation passes iff it is non-empty and equal to the password |
| `Forms.RegisterErrors` | app/forms.py:18-75 | no errors iff every registration rule holds: fresh alphanumeric username of length ≥ 4, well-formed email whose lower-cased form is fresh, strong password, equal confirmation |
| `Forms.AcceptedRegistrationIsFresh` | app/forms.py:27-42 | an accepted form has a username and a lower-cased email that no stored user has |
| `Forms.LoginErrors` | app/forms.py:11-15 | the login form passes iff the email is non-empty and well formed and the password is non-empty |
| `Forms.NameErrors` | app/forms.py:83 | the item name passes iff it has at least 3 characters; empty is "required", 1 or 2 characters is "too short" |
| `Forms.ItemErrors` | app/forms.py:82-85 | no errors iff the name has length ≥ 3 and a non-zero price is given; the price error appears iff the price is missing or 0 |
| `Models.GeneratePasswordHash` | app/models.py:34-35 | the stored hash keeps the salt and verifies the password it was made from |
| `Models.User.CheckPassword` | app/models.py:37-39 | `check_password` holds iff the stored hash is exactly what `generate_password_hash` gives for this password under the stored salt, i.e. the salt and digest re-derive from the password |
| `Models.CheckPasswordHashExact` | app/models.py:37-39 | for an injective key-derivation function, a hash of `p` verifies `q` iff `q == p` |
| `Models.User.constructor` | app/routes.py:96 | a new user row has the given key, username and email, and no hash or last-seen time yet |
| `Models.User.SetPassword` | app/models.py:34-35 | the hash is replaced by a hash of the password (no string is stored), `last_seen` is unchanged, and `check_password` of that password holds |
| `Models.FirstUser` | app/models.py:15 | the first-match lookup behind `query.get` and `filter_by(...).first()`: a stored user satisfying the condition is returned iff one exists |
| `Models.LoadUser` | app/models.py:13-15 | returns a stored user with the given key iff one exists |
| `Models.FindByUsername` | app/forms.py:30 | returns a stored user with exactly this username iff one exists |
| `Models.FindByEmail` | app/routes.py:49 | returns a stored user with exactly this email iff one exists |
| `Models.NextId` | app/models.py:22 | SQLite's key for a new row: above every key present, one more than the largest present, and 1 when there is none |
| `Models.NextUserId` | app/models.py:22 | the key of a new user is above every existing key, and is 1 in an empty table |
| `Models.NextItemId` | app/models.py:47 | the key of a new item is above every existing key, and is 1 in an empty table |
| `Models.AppendUserWellFormed` | app/models.py:22-24 | inserting a user with a larger key, a new username and a new lower-cased email keeps keys ascending and usernames and emails unique |
| `Models.AppendItemWellFormed` | app/models.py:47-48 | inserting an item with a larger key and a new name keeps keys ascending and names unique |
| `Models.RemoveItemWellFormed` | app/models.py:47-48 | deleting one item keeps keys ascending and names unique |
| `Routes.NextPage` | app/routes.py:62-74 | after login, go to `next` iff it is present, non-empty and has an empty network location; otherwise go to the index |
| `Routes.NextPageExamples` | app/routes.py:71-74 | "/market" is followed; "http://evil.example/x", "" and a missing `next` go to the index |
| `Routes.RequireLogin` | app/routes.py:107 | an anonymous request is redirected to the login page, which will return to the requested URL; a logged-in one passes |
| `Routes.Select` | app/routes.py:30 | a filter keeps exactly the items satisfying the condition, in table order, so ascending keys stay ascending |
| `Routes.ItemsNamed` | app/routes.py:122 | exactly the items whose name contains `q` |
| `Routes.InsertByIdSorted` | app/routes.py:125 | inserting an item into a key-sorted listing keeps it sorted by key |
| `Routes.OrderById` | app/routes.py:125 | `order_by(Item.id)` returns a permutation of the table sorted by key |
| `Routes.OrderByIdOfAscending` | app/routes.py:124-125 | a table with ascending keys is listed in its stored order |
| `Routes.MarketListing` | app/routes.py:119-125 | a non-empty `q` lists exactly the items whose name contains it; otherwise every item, sorted by key |
| `Routes.MarketListingOfTable` | app/routes.py:124-125 | with ascending keys, the full market listing is the item table itself |
| `Routes.SearchListing` | app/routes.py:132-136 | a non-empty `q` lists exactly the items whose name contains it; otherwise nothing |
| `Routes.FindItem` | app/routes.py:144 | finds the position of the item with the given key iff one exists |
| `Routes.WithoutItem` | app/routes.py:145-146 | after deleting key `id`, exactly the items with another key remain |
| `Routes.WithoutFirst` | app/routes.py:144-146 | with ascending keys, deleting the first item's key leaves exactly the rest of the table |
| `Routes.WithoutItemRemovesOne` | app/routes.py:144-146 | with unique keys, deleting the item at position k leaves every other item, in order |
| `Routes.Market.Valid` | app/models.py:22-24 | the schema constraints every handler keeps: user keys ascend, usernames and emails are unique, emails are stored lower-cased, every user has a hash, item keys ascend, item names are unique, every item's owner exists, and a logged-in session names a stored user; so a non-empty item table or a logged-in session implies a stored user |
| `Routes.Market.CurrentUser` | app/routes.py:12 | `current_user` is a stored user with the session's key exactly when the session is logged in |
| `Routes.Market.BeforeRequest` | app/routes.py:10-14 | only the logged-in user's `last_seen` becomes `now`; every other user, every hash and the tables are unchanged |
| `Routes.Market.Login` | app/routes.py:34-76 | logged in: go to the index, no change; an unknown email and a wrong password give the same "invalid email or password" redirect and the session stays anonymous; success opens the session for that user with the remember flag and goes to `NextPage`; the tables never change |
| `Routes.Market.Logout` | app/routes.py:79-82 | the session is anonymous afterwards, whatever it was, so logging out twice is the same as once; the tables are unchanged |
| `Routes.Market.AddUser` | app/routes.py:96-99 | exactly one user is appended, with the next key, its password hash and the `last_seen` default, and every constraint still holds |
| `Routes.Market.Register` | app/routes.py:85-103 | logged in: go to the index, no change; a form with errors changes nothing; an accepted form appends exactly one user with the lower-cased email and a hash that verifies the password, leaves the session anonymous and goes to the login page |
| `Routes.Market.MarketRoute` | app/routes.py:106-126 | an accepted form appends one item owned by the current user, or fails with nothing changed when the name exists; otherwise nothing changes and the page lists `MarketListing` |
| `Routes.Market.Search` | app/routes.py:129-138 | logged in: the items whose name contains a non-empty `q`, else none |
| `Routes.Market.RemoveItem` | app/routes.py:145-146 | deleting the row at a position removes that row's key from the table, leaves every other row in order, keeps the users and the session, and keeps every table invariant |
| `Routes.Market.DeleteItem` | app/routes.py:141-147 | removes exactly the item with the given key, whoever owns it, and keeps the order of the rest; a missing key is an error and changes nothing |
| `Routes.Market.UserRoute` | app/routes.py:26-31 | 404 iff no user has that username; otherwise that user and exactly the items they own |

## Left out

- Template rendering, `flash` text, `url_for` and HTTP redirect mechanics. A
  response is a page value or a redirect destination.
- The `index` view. It only renders a template behind `login_required`,
  which `RequireLogin` models.
- CSRF and the POST check of `validate_on_submit`. The `submitted` field of
  each form stands for both.
- The `Email()` syntax check. It is the parameter `emailSyntax`.
- The internals of werkzeug hashing. The hash is the parameter `kdf`, and
  the random salt is an argument. Injectivity of `kdf` is assumed only where
  a lemma says so.
- The internals of `url_parse`. It is the parameter `netloc`.
- `datetime.utcnow`. Time is a `nat`.
- `Forms.FieldErrors`: the "required" check also refuses a value made only of
  whitespace. The model refuses only the empty string.
- `Strings.IsDigit`: `\d`, `\W`, `isalnum` and `lower` classify characters by
  Unicode in Python. The model uses ASCII, so a non-ASCII letter or digit
  counts as a symbol here.
- `Routes.ItemsNamed`: `contains` becomes SQL `LIKE '%q%'`. SQLite matches
  ASCII letters without regard to case, and `%` and `_` in `q` act as
  wildcards. The model uses literal, case-sensitive substring containment.
- `Routes.Market.Search`: a query without `order_by` has no specified order.
  The model returns table order.
- Parsing of the item price and of the `item_id` and user id URL
  arguments. Prices are integers or absent, and keys are `nat`. 64-bit
  overflow is not modelled.
- The `String(64)` length limits. SQLite does not enforce them.
- The `avatar` method, a Gravatar URL built from an md5 digest.
- The `Comment` model. No flow reads or writes it.
- Configuration and the application wiring in `config.py` and
  `app/__init__.py`.
- Flask-Login's session protection and the lifetime of the remember-me
  cookie. The session records only the user's key and the remember flag.
- Concurrent requests and the check-then-insert race on unique columns.
  Requests are handled one at a time.
