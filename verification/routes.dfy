/**
 * The request handlers. The database tables and the login session are the
 * state of one `Market` object; each handler that changes them is a method
 * and each handler that only reads them is a function. A redirect is
 * modelled by its destination only.
 *
 * The parts that are not Python code are parameters of the `Market`
 * object: the key-derivation function used for password hashes (`kdf`),
 * the network-location part of URL parsing (`netloc`) and the email
 * syntax validator (`emailSyntax`). The clock and the hash salt are
 * arguments of the methods that use them.
 */
module Routes {
  import opened Wrappers
  import opened Strings
  import opened Models
  import opened Forms

  /** The login session: anonymous, or logged in as a user, with or without "remember me". */
  datatype SessionState = Anonymous | Authenticated(userId: nat, remember: bool)

  /** Where a redirect goes. `LoginView(next)` carries the page to return to after logging in. */
  datatype Dest = IndexView | LoginView(next: Option<string>) | MarketView | Path(url: string)

  datatype Flash = InvalidCredentials | Registered | ItemListed | LoginRequired

  datatype Page =
    | LoginPage(errors: seq<FieldError>)
    | RegisterPage(errors: seq<FieldError>)
    | MarketPage(items: seq<Item>, errors: seq<FieldError>)
    | SearchPage(items: seq<Item>)
    | UserPage(user: User, items: seq<Item>)

  /** `NotFound` is a 404 answer; `ServerError` is an exception escaping the handler. */
  datatype Response = Redirect(to: Dest, flash: Option<Flash>) | Render(page: Page) | NotFound | ServerError

  /**
   * Where a successful login goes: the `next` argument when it is present,
   * non-empty and has no network location (a path on this site), else the
   * index page.
   */
  function NextPage(netloc: string -> string, next: Option<string>): (d: Dest)
    ensures d.IndexView? || d.Path?
    ensures d.Path? <==> next.Some? && next.value != "" && netloc(next.value) == ""
    ensures d.Path? ==> d.url == next.value
  {
    if next.None? || next.value == "" || netloc(next.value) != "" then IndexView else Path(next.value)
  }

  /** A site path is followed after login; a URL naming another host is replaced by the index page. */
  lemma NextPageExamples(netloc: string -> string)
    requires netloc("/market") == ""
    requires netloc("http://evil.example/x") == "evil.example"
    ensures NextPage(netloc, Some("/market")) == Path("/market")
    ensures NextPage(netloc, Some("http://evil.example/x")) == IndexView
    ensures NextPage(netloc, Some("")) == IndexView
    ensures NextPage(netloc, None) == IndexView
  {
  }

  /** `login_required`: an anonymous request is sent to the login page, which will return to `url`. */
  function RequireLogin(session: SessionState, url: string): (r: Option<Response>)
    ensures r.None? <==> session.Authenticated?
    ensures r.Some? ==> r.value.Redirect? && r.value.to == LoginView(Some(url))
  {
    if session.Anonymous? then Some(Redirect(LoginView(Some(url)), Some(LoginRequired))) else None
  }

  /** In a table with ascending keys the first key is below every later one. */
  lemma HeadBelowTail(items: seq<Item>)
    requires items != [] && ItemIdsAscending(items)
    ensures forall y :: y in items[1..] ==> items[0].id < y.id
  {
  }

  /** A query's `filter(...)`: the items satisfying `p`, in table order. */
  function Select(items: seq<Item>, p: Item -> bool): (r: seq<Item>)
    ensures forall x :: x in r <==> x in items && p(x)
    ensures |r| <= |items|
    ensures ItemIdsAscending(items) ==> ItemIdsAscending(r)
  {
    if items == [] then []
    else
      var rest := Select(items[1..], p);
      if p(items[0]) then
        assert ItemIdsAscending(items) ==> ItemIdsAscending([items[0]] + rest) by {
          if ItemIdsAscending(items) {
            HeadBelowTail(items);
            assert forall j :: 0 <= j < |rest| ==> rest[j] in items[1..];
          }
        }
        [items[0]] + rest
      else rest
  }

  /** `Item.name.contains(q)`: the items whose name contains `q`. */
  function ItemsNamed(items: seq<Item>, q: string): (r: seq<Item>)
    ensures forall x :: x in r <==> x in items && IsSubstring(q, x.name)
    ensures ItemIdsAscending(items) ==> ItemIdsAscending(r)
  {
    Select(items, (x: Item) => IsSubstring(q, x.name))
  }

  predicate SortedById(items: seq<Item>)
  {
    forall i, j :: 0 <= i < j < |items| ==> items[i].id <= items[j].id
  }

  function InsertById(x: Item, s: seq<Item>): (r: seq<Item>)
    ensures multiset(r) == multiset(s) + multiset{x}
    ensures forall y :: y in r ==> y in s || y == x
  {
    if s == [] then [x]
    else if x.id <= s[0].id then [x] + s
    else
      assert s == [s[0]] + s[1..];
      [s[0]] + InsertById(x, s[1..])
  }

  /** Inserting into a sorted sequence keeps it sorted. */
  lemma {:induction false} InsertByIdSorted(x: Item, s: seq<Item>)
    requires SortedById(s)
    ensures SortedById(InsertById(x, s))
  {
    if s != [] && x.id > s[0].id {
      InsertByIdSorted(x, s[1..]);
      var rest := InsertById(x, s[1..]);
      assert forall j :: 0 <= j < |rest| ==> rest[j] in s[1..] || rest[j] == x;
      assert forall y :: y in s[1..] ==> s[0].id <= y.id;
    }
  }

  /** `order_by(Item.id)`: the same items, sorted by primary key. */
  function OrderById(items: seq<Item>): (r: seq<Item>)
    ensures multiset(r) == multiset(items)
    ensures SortedById(r)
  {
    if items == [] then []
    else
      assert items == [items[0]] + items[1..];
      var sorted := OrderById(items[1..]);
      InsertByIdSorted(items[0], sorted);
      InsertById(items[0], sorted)
  }

  /** A table whose keys are already ascending is listed in its stored order. */
  lemma {:induction false} OrderByIdOfAscending(items: seq<Item>)
    requires ItemIdsAscending(items)
    ensures OrderById(items) == items
  {
    if items != [] {
      OrderByIdOfAscending(items[1..]);
      assert items == [items[0]] + items[1..];
    }
  }

  /** A non-empty search string: `if q:` on the query argument. */
  predicate HasQuery(q: Option<string>)
  {
    q.Some? && q.value != ""
  }

  /** The items the market page lists: the matches of a non-empty `q`, else every item by ascending key. */
  function MarketListing(items: seq<Item>, q: Option<string>): (r: seq<Item>)
    ensures HasQuery(q) ==> forall x :: x in r <==> x in items && IsSubstring(q.value, x.name)
    ensures !HasQuery(q) ==> multiset(r) == multiset(items) && SortedById(r)
  {
    if HasQuery(q) then ItemsNamed(items, q.value) else OrderById(items)
  }

  /** The items the search page lists: the matches of a non-empty `q`, else nothing. */
  function SearchListing(items: seq<Item>, q: Option<string>): (r: seq<Item>)
    ensures HasQuery(q) ==> forall x :: x in r <==> x in items && IsSubstring(q.value, x.name)
    ensures !HasQuery(q) ==> r == []
  {
    if HasQuery(q) then ItemsNamed(items, q.value) else []
  }

  /** `Item.query.get(id)`: the position of the item with key `id`, if any. */
  function FindItem(items: seq<Item>, id: nat): (r: Option<nat>)
    ensures r.None? <==> forall x :: x in items ==> x.id != id
    ensures r.Some? ==> r.value < |items| && items[r.value].id == id
  {
    if items == [] then None
    else if items[0].id == id then Some(0)
    else match FindItem(items[1..], id)
      case None => None
      case Some(k) => Some(k + 1)
  }

  /** Deleting the row with key `id`: every other row, in order. */
  function WithoutItem(items: seq<Item>, id: nat): (r: seq<Item>)
    ensures forall x :: x in r <==> x in items && x.id != id
    ensures |r| <= |items|
  {
    if items == [] then []
    else if items[0].id == id then WithoutItem(items[1..], id)
    else [items[0]] + WithoutItem(items[1..], id)
  }

  /** With unique keys, deleting the item at position `k` removes it and nothing else. */
  lemma {:induction false} WithoutItemRemovesOne(items: seq<Item>, k: nat)
    requires ItemIdsAscending(items)
    requires k < |items|
    ensures WithoutItem(items, items[k].id) == items[..k] + items[k + 1..]
  {
    if k == 0 {
      WithoutFirst(items);
    } else {
      var tail := items[1..];
      assert items[0].id < items[k].id && tail[k - 1] == items[k];
      WithoutItemRemovesOne(tail, k - 1);
      assert items[..k] + items[k + 1..] == [items[0]] + (tail[..k - 1] + tail[k..]);
    }
  }

  /** With ascending keys, deleting the first key leaves the rest of the table. */
  lemma WithoutFirst(items: seq<Item>)
    requires ItemIdsAscending(items)
    requires items != []
    ensures WithoutItem(items, items[0].id) == items[1..]
  {
    HeadBelowTail(items);
    WithoutAbsent(items[1..], items[0].id);
  }

  /** Deleting a key that is not present changes nothing. */
  lemma {:induction false} WithoutAbsent(items: seq<Item>, id: nat)
    requires forall x :: x in items ==> x.id != id
    ensures WithoutItem(items, id) == items
  {
    if items != [] {
      WithoutAbsent(items[1..], id);
      assert items == [items[0]] + items[1..];
    }
  }

  /** The listing in ascending order: with ascending keys, market's full listing is the table itself. */
  lemma MarketListingOfTable(items: seq<Item>, q: Option<string>)
    requires ItemIdsAscending(items)
    requires !HasQuery(q)
    ensures MarketListing(items, q) == items
  {
    OrderByIdOfAscending(items);
  }

  /** Two users with the same key in a table with ascending keys are the same row. */
  lemma SameIdSameUser(users: seq<User>, a: User, b: User)
    requires UserIdsAscending(users)
    requires a in users && b in users && a.id == b.id
    ensures a == b
  {
  }

  /**
   * The application state: the `user` and `item` tables and the login
   * session, with the constraints the schema declares.
   */
  class Market {
    const kdf: Kdf
    const netloc: string -> string
    const emailSyntax: string -> bool
    /** The `last_seen` column default, a timestamp taken once when the model is loaded. */
    const lastSeenDefault: nat

    var users: seq<User>
    var items: seq<Item>
    var session: SessionState

    /**
     * The schema's constraints on the two tables, every user has a password
     * hash, and a logged-in session names a stored user.
     */
    ghost predicate Valid()
      reads this, users
      ensures Valid() && items != [] ==> users != []
      ensures Valid() && session.Authenticated? ==> users != []
    {
      && UsersWellFormed(users)
      && HashesSet(users)
      && ItemsWellFormed(items)
      && (assert items != [] ==> items[0] in items; OwnersExist(users, items))
      && (session.Authenticated? ==> LoadUser(users, session.userId).Some?)
    }

    constructor (kdf: Kdf, netloc: string -> string, emailSyntax: string -> bool, lastSeenDefault: nat)
      ensures Valid()
      ensures this.kdf == kdf && this.netloc == netloc && this.emailSyntax == emailSyntax
      ensures this.lastSeenDefault == lastSeenDefault
      ensures users == [] && items == [] && session == Anonymous
    {
      this.kdf := kdf;
      this.netloc := netloc;
      this.emailSyntax := emailSyntax;
      this.lastSeenDefault := lastSeenDefault;
      users := [];
      items := [];
      session := Anonymous;
    }

    /** `current_user` when logged in. */
    function CurrentUser(): (r: Option<User>)
      requires Valid()
      reads this, users
      ensures r.Some? <==> session.Authenticated?
      ensures r.Some? ==> r.value in users && r.value.id == session.userId
    {
      if session.Authenticated? then LoadUser(users, session.userId) else None
    }

    /** `before_request`: stamp the logged-in user's `last_seen` with `now`; nothing else changes. */
    method BeforeRequest(now: nat)
      requires Valid()
      modifies users
      ensures Valid()
      ensures forall u :: u in users ==> u.passwordHash == old(u.passwordHash)
      ensures forall u :: u in users ==>
        u.lastSeen == if session.Authenticated? && u.id == session.userId then Some(now) else old(u.lastSeen)
    {
      var current := CurrentUser();
      if current.Some? {
        var u := current.value;
        u.lastSeen := Some(now);
        forall v | v in users && v.id == session.userId
          ensures v == u
        {
          SameIdSameUser(users, u, v);
        }
      }
    }

    /** `login`: check the credentials, open the session and choose where to go next. */
    method Login(form: LoginForm, next: Option<string>) returns (resp: Response)
      requires Valid()
      modifies this
      ensures Valid()
      ensures users == old(users) && items == old(items)
      ensures old(session).Authenticated? ==> resp == Redirect(IndexView, None) && session == old(session)
      ensures old(session).Anonymous? && !form.submitted ==>
        resp == Render(LoginPage([])) && session == Anonymous
      ensures old(session).Anonymous? && form.submitted && LoginErrors(emailSyntax, form) != [] ==>
        resp == Render(LoginPage(LoginErrors(emailSyntax, form))) && session == Anonymous
      ensures old(session).Anonymous? && form.submitted && LoginErrors(emailSyntax, form) == [] ==>
        var found := FindByEmail(users, Lower(form.email));
        if found.None? || !found.value.CheckPassword(kdf, form.password) then
          resp == Redirect(LoginView(None), Some(InvalidCredentials)) && session == Anonymous
        else
          resp == Redirect(NextPage(netloc, next), None) && session == Authenticated(found.value.id, form.rememberMe)
    {
      if session.Authenticated? {
        return Redirect(IndexView, None);
      }
      if !form.submitted {
        return Render(LoginPage([]));
      }
      var errors := LoginErrors(emailSyntax, form);
      if errors != [] {
        return Render(LoginPage(errors));
      }
      var found := FindByEmail(users, Lower(form.email));
      if found.None? || !found.value.CheckPassword(kdf, form.password) {
        return Redirect(LoginView(None), Some(InvalidCredentials));
      }
      session := Authenticated(found.value.id, form.rememberMe);
      resp := Redirect(NextPage(netloc, next), None);
    }

    /** `logout`: whatever the session was, it is anonymous afterwards. */
    method Logout() returns (resp: Response)
      requires Valid()
      modifies this
      ensures Valid()
      ensures users == old(users) && items == old(items)
      ensures session == Anonymous
      ensures resp == Redirect(IndexView, None)
    {
      session := Anonymous;
      resp := Redirect(IndexView, None);
    }

    /**
     * Create a user, set its password and commit it: the row gets the next
     * key and the `last_seen` column default.
     */
    method AddUser(username: string, email: string, password: string, salt: nat) returns (u: User)
      requires Valid()
      requires forall v :: v in users ==> v.username != username && v.email != email
      requires Lower(email) == email
      modifies this
      ensures Valid()
      ensures items == old(items) && session == old(session)
      ensures users == old(users) + [u]
      ensures fresh(u) && u.id == NextUserId(old(users)) && u.username == username && u.email == email
      ensures u.passwordHash == Some(GeneratePasswordHash(kdf, salt, password))
      ensures u.lastSeen == Some(lastSeenDefault)
    {
      u := new User(NextUserId(users), username, email);
      u.SetPassword(kdf, salt, password);
      u.lastSeen := Some(lastSeenDefault);
      AppendUserWellFormed(users, u);
      assert HashesSet(users + [u]) by {
        forall v | v in users + [u]
          ensures v.passwordHash.Some?
        {
          if v != u {
            assert v in users;
          }
        }
      }
      ghost var before := users;
      users := users + [u];
      assert OwnersExist(users, items) by {
        forall x | x in items
          ensures exists v :: v in users && v.id == x.userId
        {
          var v :| v in before && v.id == x.userId;
          assert v in users;
        }
      }
      assert session.Authenticated? ==> LoadUser(users, session.userId).Some? by {
        if session.Authenticated? {
          var v := LoadUser(before, session.userId).value;
          assert v in users;
        }
      }
    }

    /** `register`: on an accepted form, insert exactly one user, hashing the password with `salt`. */
    method Register(form: RegisterForm, salt: nat) returns (resp: Response)
      requires Valid()
      modifies this
      ensures Valid()
      ensures items == old(items) && session == old(session)
      ensures old(session).Authenticated? ==> resp == Redirect(IndexView, None) && users == old(users)
      ensures old(session).Anonymous? && !form.submitted ==>
        resp == Render(RegisterPage([])) && users == old(users)
      ensures old(session).Anonymous? && form.submitted && RegisterErrors(old(users), emailSyntax, form) != [] ==>
        resp == Render(RegisterPage(RegisterErrors(old(users), emailSyntax, form))) && users == old(users)
      ensures old(session).Anonymous? && form.submitted && RegisterErrors(old(users), emailSyntax, form) == [] ==>
        && resp == Redirect(LoginView(None), Some(Registered))
        && |users| == |old(users)| + 1
        && var u := users[|users| - 1];
        && users == old(users) + [u]
        && fresh(u)
        && u.id == NextUserId(old(users))
        && u.username == form.username
        && u.email == Lower(form.email)
        && u.passwordHash == Some(GeneratePasswordHash(kdf, salt, form.password))
        && u.CheckPassword(kdf, form.password)
        && u.lastSeen == Some(lastSeenDefault)
    {
      if session.Authenticated? {
        return Redirect(IndexView, None);
      }
      if !form.submitted {
        return Render(RegisterPage([]));
      }
      var errors := RegisterErrors(users, emailSyntax, form);
      if errors != [] {
        return Render(RegisterPage(errors));
      }
      AcceptedRegistrationIsFresh(users, emailSyntax, form);
      LowerIdempotent(form.email);
      var u := AddUser(form.username, Lower(form.email), form.password, salt);
      resp := Redirect(LoginView(None), Some(Registered));
    }

    /**
     * `market`: on an accepted item form, add an item owned by the current
     * user; otherwise list the items, filtered by `q` when it is non-empty.
     * A name already in the table fails at commit and changes nothing.
     */
    method MarketRoute(url: string, form: ItemForm, q: Option<string>) returns (resp: Response)
      requires Valid()
      modifies this
      ensures Valid()
      ensures users == old(users) && session == old(session)
      ensures session.Anonymous? ==> resp == RequireLogin(session, url).value && items == old(items)
      ensures session.Authenticated? && form.submitted && ItemErrors(form) == [] ==>
        if exists x :: x in old(items) && x.name == form.name then
          resp == ServerError && items == old(items)
        else
          && resp == Redirect(MarketView, Some(ItemListed))
          && items == old(items) + [Item(NextItemId(old(items)), form.name, form.price.value, session.userId)]
      ensures session.Authenticated? && !(form.submitted && ItemErrors(form) == []) ==>
        && items == old(items)
        && resp == Render(MarketPage(MarketListing(items, q), if form.submitted then ItemErrors(form) else []))
    {
      var guard := RequireLogin(session, url);
      if guard.Some? {
        return guard.value;
      }
      var errors := if form.submitted then ItemErrors(form) else [];
      if form.submitted && errors == [] {
        if exists x :: x in items && x.name == form.name {
          return ServerError;
        }
        var item := Item(NextItemId(items), form.name, form.price.value, session.userId);
        AppendItemWellFormed(items, item);
        var owner := LoadUser(users, session.userId).value;
        items := items + [item];
        assert OwnersExist(users, items) by {
          assert owner in users && owner.id == item.userId;
        }
        return Redirect(MarketView, Some(ItemListed));
      }
      resp := Render(MarketPage(MarketListing(items, q), errors));
    }

    /** `search`: the items whose name contains a non-empty `q`, else none. */
    function Search(url: string, q: Option<string>): (r: Response)
      reads this
      ensures session.Anonymous? ==> r.Redirect? && r.to == LoginView(Some(url))
      ensures session.Authenticated? ==> r.Render? && r.page.SearchPage?
      ensures session.Authenticated? && HasQuery(q) ==>
        forall x :: x in r.page.items <==> x in items && IsSubstring(q.value, x.name)
      ensures session.Authenticated? && !HasQuery(q) ==> r.page.items == []
    {
      if session.Anonymous? then RequireLogin(session, url).value
      else Render(SearchPage(SearchListing(items, q)))
    }

    /** `db.session.delete(item)` and `commit` for the item at position `k`. */
    method RemoveItem(k: nat)
      requires Valid()
      requires k < |items|
      modifies this
      ensures Valid()
      ensures users == old(users) && session == old(session)
      ensures items == WithoutItem(old(items), old(items)[k].id)
      ensures items == old(items)[..k] + old(items)[k + 1..]
    {
      WithoutItemRemovesOne(items, k);
      RemoveItemWellFormed(items, k);
      var rest := WithoutItem(items, items[k].id);
      assert OwnersExist(users, rest) by {
        forall x | x in rest
          ensures exists v :: v in users && v.id == x.userId
        {
          assert x in items;
        }
      }
      items := rest;
    }

    /** `delete_item`: remove the item with key `id`, whoever owns it; a missing key is an error. */
    method DeleteItem(url: string, id: nat) returns (resp: Response)
      requires Valid()
      modifies this
      ensures Valid()
      ensures users == old(users) && session == old(session)
      ensures session.Anonymous? ==> resp == RequireLogin(session, url).value && items == old(items)
      ensures session.Authenticated? && FindItem(old(items), id).None? ==>
        resp == ServerError && items == old(items)
      ensures session.Authenticated? && FindItem(old(items), id).Some? ==>
        var k := FindItem(old(items), id).value;
        && items == old(items)[..k] + old(items)[k + 1..]
        && resp == Redirect(MarketView, None)
    {
      var guard := RequireLogin(session, url);
      if guard.Some? {
        return guard.value;
      }
      var k := FindItem(items, id);
      if k.None? {
        return ServerError;
      }
      RemoveItem(k.value);
      resp := Redirect(MarketView, None);
    }

    /** `user`: the profile of the user called `username` with the items they own, or 404. */
    function UserRoute(url: string, username: string): (r: Response)
      reads this
      ensures session.Anonymous? ==> r.Redirect? && r.to == LoginView(Some(url))
      ensures session.Authenticated? ==>
        (r == NotFound <==> forall u :: u in users ==> u.username != username)
      ensures session.Authenticated? && r != NotFound ==>
        && r.Render? && r.page.UserPage?
        && r.page.user in users && r.page.user.username == username
        && forall x :: x in r.page.items <==> x in items && x.userId == r.page.user.id
    {
      if session.Anonymous? then RequireLogin(session, url).value
      else match FindByUsername(users, username)
        case None => NotFound
        case Some(u) => Render(UserPage(u, Select(items, (x: Item) => x.userId == u.id)))
    }
  }
}
