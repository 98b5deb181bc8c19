/** Signing in: the e-mail-or-username identifier, the credential check, and
    the merge of the session's guest cart into the account's cart. */
module Accounts {
  import opened Wrappers
  import opened Text
  import opened Fields
  import opened Pricing
  import opened Carts
  import opened CartViews

  /** The part of an account row login consults. Passwords stay behind the
      credential check, which is a parameter. */
  datatype UserRow = UserRow(id: nat, username: string, email: string)

  /** The accounts whose e-mail is exactly `email`, in table order. */
  function EmailMatches(users: seq<UserRow>, email: string): (r: seq<UserRow>)
    ensures |r| <= |users|
    ensures forall i :: 0 <= i < |r| ==> r[i].email == email && r[i] in users
    ensures forall i :: 0 <= i < |users| && users[i].email == email ==> users[i] in r
  {
    if |users| == 0 then []
    else
      var rest := EmailMatches(users[1..], email);
      assert forall i :: 1 <= i < |users| ==> users[i] == users[1..][i - 1];
      if users[0].email == email then [users[0]] + rest else rest
  }

  /** The name handed to the credential check: an identifier containing '@'
      that is the e-mail of exactly one account becomes that account's
      username; one that is nobody's e-mail is passed on as typed; one shared
      by several accounts makes the lookup raise (500). */
  function ResolveIdentifier(users: seq<UserRow>, ident: string): (r: Result<string>)
    ensures '@' !in ident ==> r == Ok(ident)
    ensures '@' in ident && |EmailMatches(users, ident)| == 0 ==> r == Ok(ident)
    ensures '@' in ident && |EmailMatches(users, ident)| == 1 ==> r == Ok(EmailMatches(users, ident)[0].username)
    ensures r.Err? <==> '@' in ident && |EmailMatches(users, ident)| > 1
    ensures r.Err? ==> r.error == ServerError
  {
    if '@' !in ident then Ok(ident)
    else
      var m := EmailMatches(users, ident);
      if |m| == 0 then Ok(ident)
      else if |m| == 1 then Ok(m[0].username)
      else Err(ServerError)
  }

  /** An e-mail address that exactly one account has resolves to that
      account's username. */
  lemma UniqueEmailResolves(users: seq<UserRow>, k: nat)
    requires k < |users| && '@' in users[k].email
    requires forall i :: 0 <= i < |users| && i != k ==> users[i].email != users[k].email
    ensures ResolveIdentifier(users, users[k].email) == Ok(users[k].username)
  {
    var e := users[k].email;
    var m := EmailMatches(users, e);
    assert users[k] in m;
    forall i | 0 <= i < |m| ensures m[i] == users[k] {
      var j :| 0 <= j < |users| && users[j] == m[i];
    }
    if |m| > 1 {
      assert m[0] == m[1];
      SingleRowMatches(users, e, k);
    }
  }

  /** When only one account has the e-mail, the matches are that account,
      once. */
  lemma {:induction false} SingleRowMatches(users: seq<UserRow>, e: string, k: nat)
    requires k < |users| && users[k].email == e
    requires forall i :: 0 <= i < |users| && i != k ==> users[i].email != e
    ensures EmailMatches(users, e) == [users[k]]
    decreases |users|
  {
    var tail := users[1..];
    if k == 0 {
      NoRowMatches(tail, e);
    } else {
      assert users[0].email != e;
      forall i | 0 <= i < |tail| && i != k - 1 ensures tail[i].email != e {
        assert tail[i] == users[i + 1];
      }
      SingleRowMatches(tail, e, k - 1);
    }
  }

  lemma {:induction false} NoRowMatches(users: seq<UserRow>, e: string)
    requires forall i :: 0 <= i < |users| ==> users[i].email != e
    ensures EmailMatches(users, e) == []
    decreases |users|
  {
    if |users| > 0 {
      NoRowMatches(users[1..], e);
    }
  }

  // ---------------- the guest-cart merge ----------------

  /** The merge runs only for a (non-empty) session key whose guest cart has
      at least one line. */
  predicate MergeApplies(s: CartStore, session: Option<string>) {
    session.Some? && session.value != "" && Guest(session.value) in s.carts && |s.carts[Guest(session.value)]| > 0
  }

  /** The account's lines before the merge: its cart, or none yet. */
  function AccountLines(s: CartStore, uid: nat): Lines {
    if Account(uid) in s.carts then s.carts[Account(uid)] else []
  }

  /** The merge after a successful sign-in: the account's cart (created if
      missing) absorbs the guest lines one by one, a matching line taking the
      guest quantity and an unmatched line moving over whole, and then the
      guest cart is deleted. Every other cart stays as it was. */
  function MergeGuestCart(s: CartStore, uid: nat, session: Option<string>): (t: CartStore)
    ensures t.nextLineId == s.nextLineId
    ensures !MergeApplies(s, session) ==> t == s
    ensures MergeApplies(s, session) ==>
      var g := Guest(session.value);
      && g !in t.carts && Account(uid) in t.carts
      && t.carts[Account(uid)] == Merge(AccountLines(s, uid), s.carts[g])
      && t.carts.Keys == s.carts.Keys - {g} + {Account(uid)}
      && (forall o :: o in s.carts && o != g && o != Account(uid) ==> t.carts[o] == s.carts[o])
  {
    if !MergeApplies(s, session) then s
    else
      var g := Guest(session.value);
      var merged := Merge(AccountLines(s, uid), s.carts[g]);
      CartStore(s.carts[Account(uid) := merged] - {g}, s.nextLineId)
  }

  /** The merge loses and invents nothing: key by key, the account now holds
      its old units plus the guest units, so the item count adds up too. */
  lemma MergeGuestCartConserves(s: CartStore, uid: nat, session: Option<string>, key: LineKey)
    requires StoreValid(s) && MergeApplies(s, session)
    ensures var t := MergeGuestCart(s, uid, session);
      var guest := s.carts[Guest(session.value)];
      && QuantityOf(t.carts[Account(uid)], key) == QuantityOf(AccountLines(s, uid), key) + QuantityOf(guest, key)
      && ItemCount(t.carts[Account(uid)]) == ItemCount(AccountLines(s, uid)) + ItemCount(guest)
  {
    var user := AccountLines(s, uid);
    var guest := s.carts[Guest(session.value)];
    MergeUnits(user, guest, key);
    MergeItemCount(user, guest);
  }

  /** With every line resolving, the merged cart is worth what the two
      carts were worth together. */
  lemma MergeGuestCartTotal(c: Catalog, s: CartStore, uid: nat, session: Option<string>)
    requires Consistent(c) && StoreResolves(c, s) && MergeApplies(s, session)
    ensures var t := MergeGuestCart(s, uid, session);
      var guest := s.carts[Guest(session.value)];
      && AllResolve(c, AccountLines(s, uid)) && AllResolve(c, guest) && AllResolve(c, t.carts[Account(uid)])
      && Total(c, t.carts[Account(uid)]) == Total(c, AccountLines(s, uid)) + Total(c, guest)
  {
    MergeTotal(c, AccountLines(s, uid), s.carts[Guest(session.value)]);
  }

  /** The merge keeps the store valid: one line per key, positive
      quantities, and no line id shared between carts. */
  lemma MergeGuestCartValid(s: CartStore, uid: nat, session: Option<string>)
    requires StoreValid(s)
    ensures StoreValid(MergeGuestCart(s, uid, session))
  {
    if MergeApplies(s, session) {
      var g := Guest(session.value);
      var a := Account(uid);
      var user := AccountLines(s, uid);
      var guest := s.carts[g];
      var merged := Merge(user, guest);
      var t := MergeGuestCart(s, uid, session);
      assert Ids(user) !! Ids(guest);
      MergeWellFormed(user, guest);
      MergeIds(user, guest);
      forall i | 0 <= i < |merged| ensures merged[i].id < s.nextLineId {
        assert merged[i].id in Ids(merged);
        if merged[i].id in Ids(user) {
          var j :| 0 <= j < |user| && user[j].id == merged[i].id;
        } else {
          var j :| 0 <= j < |guest| && guest[j].id == merged[i].id;
        }
      }
      forall o | o in t.carts && o != a ensures Ids(merged) !! Ids(t.carts[o]) {
        assert o in s.carts && o != g;
        assert Ids(user) !! Ids(s.carts[o]);
        assert Ids(guest) !! Ids(s.carts[o]);
      }
    }
  }

  /** Every merged line still refers to a catalog row. */
  lemma MergeGuestCartResolves(c: Catalog, s: CartStore, uid: nat, session: Option<string>)
    requires StoreResolves(c, s)
    ensures StoreResolves(c, MergeGuestCart(s, uid, session))
  {
    if MergeApplies(s, session) {
      MergeResolves(c, AccountLines(s, uid), s.carts[Guest(session.value)]);
    }
  }

  // ---------------- the login handler ----------------

  /** What the login handler leaves behind: the carts and, on success, the
      signed-in account's id. */
  datatype LoginStep = LoginStep(store: CartStore, result: Result<nat>)

  /** A well-formed sign-in request: the name to check and the password. */
  datatype SignIn = SignIn(name: string, password: string)

  /** The login form: both fields are required trimmed strings, and the
      identifier is resolved to the name the credential check receives. */
  function ReadSignIn(users: seq<UserRow>, username: TextInput, password: TextInput): (r: Result<SignIn>)
    ensures RequiredText(username).Err? || RequiredText(password).Err? ==> r == Err(ValidationError)
    ensures RequiredText(username).Ok? && RequiredText(password).Ok? ==>
      var ident := ResolveIdentifier(users, Strip(username.s));
      && (ident.Err? ==> r == Err(ServerError))
      && (ident.Ok? ==> r == Ok(SignIn(ident.value, Strip(password.s))))
  {
    var name :- RequiredText(username);
    var pw :- RequiredText(password);
    var ident :- ResolveIdentifier(users, name);
    Ok(SignIn(ident, pw))
  }

  /** `LoginView.post`: a readable form is checked with `authenticate`, which
      gives the account or nothing; nothing means 401 and no merge; an
      account means the guest cart of the request's session is merged. */
  function Login(users: seq<UserRow>, authenticate: (string, string) -> Option<nat>, s: CartStore,
                 session: Option<string>, username: TextInput, password: TextInput): (r: LoginStep)
    ensures r.result.Err? ==> r.store == s
    ensures ReadSignIn(users, username, password).Err? ==> r.result == Err(ReadSignIn(users, username, password).error)
    ensures r.result == Err(InvalidCredentials) <==>
      && ReadSignIn(users, username, password).Ok?
      && authenticate(ReadSignIn(users, username, password).value.name, ReadSignIn(users, username, password).value.password).None?
    ensures r.result.Ok? <==>
      && ReadSignIn(users, username, password).Ok?
      && authenticate(ReadSignIn(users, username, password).value.name, ReadSignIn(users, username, password).value.password).Some?
    ensures r.result.Ok? ==>
      && ReadSignIn(users, username, password).Ok?
      && Some(r.result.value) == authenticate(ReadSignIn(users, username, password).value.name, ReadSignIn(users, username, password).value.password)
      && r.store == MergeGuestCart(s, r.result.value, session)
  {
    match ReadSignIn(users, username, password)
    case Err(e) => LoginStep(s, Err(e))
    case Ok(req) =>
      match authenticate(req.name, req.password)
      case None => LoginStep(s, Err(InvalidCredentials))
      case Some(uid) => LoginStep(MergeGuestCart(s, uid, session), Ok(uid))
  }

  /** Signing in keeps the store valid and resolvable, whatever happens. */
  lemma LoginValid(c: Catalog, users: seq<UserRow>, authenticate: (string, string) -> Option<nat>, s: CartStore,
                   session: Option<string>, username: TextInput, password: TextInput)
    requires StoreValid(s) && StoreResolves(c, s)
    ensures StoreValid(Login(users, authenticate, s, session, username, password).store)
    ensures StoreResolves(c, Login(users, authenticate, s, session, username, password).store)
  {
    var r := Login(users, authenticate, s, session, username, password);
    if r.result.Ok? {
      MergeGuestCartValid(s, r.result.value, session);
      MergeGuestCartResolves(c, s, r.result.value, session);
    }
  }
}
