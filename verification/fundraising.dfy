/** Alumni fundraisers: creation with a target taken from a board or a
    classroom package, the donation accumulator, and the donor count and
    leaderboard shown with a fundraiser. */
module Fundraising {
  import opened Wrappers
  import opened Fields
  import opened Access

  datatype FStatus = Active | Completed | Cancelled
  datatype DonationStatus = DonationPending | DonationCompleted | DonationFailed

  datatype Donation = Donation(donorName: string, amount: real, isAnonymous: bool, status: DonationStatus)

  /** A fundraiser with the donations made to it. School, type, dates and
      the generated ids are not modelled. */
  datatype Fundraiser = Fundraiser(
    creator: nat,
    boardId: Option<nat>,
    packageId: Option<nat>,
    target: real,
    current: real,
    status: FStatus,
    donations: seq<Donation>)

  /** Fundraisers by their share link, the key the endpoints look them up by. */
  type Fundraisers = map<string, Fundraiser>

  datatype FStep = FStep(fundraisers: Fundraisers, result: Result<Fundraiser>)
  datatype DStep = DStep(fundraisers: Fundraisers, result: Result<Donation>)

  // ---------------- creation ----------------

  /** `create`: the caller must be signed in; `board_id` and
      `classroom_package_id` are optional integers (other invalid fields are
      `formValid == false`). A truthy board id is looked up (a missing row
      raises: 500) and sets the target to the board price; a truthy package
      id is looked up next and overrides the target with the package price.
      With neither, the target column is left empty and the insert is
      refused; so is a share link (generated, here a parameter) that is
      already taken. */
  function Create(boards: map<nat, real>, packages: map<nat, real>, fs: Fundraisers, a: Actor,
                  boardId: Field, packageId: Field, formValid: bool, link: string): (r: FStep)
    ensures r.result.Err? ==> r.fundraisers == fs
    ensures a.Anonymous? ==> r.result == Err(NotAuthenticated)
    ensures a.Member? && (!formValid || OptionalInt(boardId).Err? || OptionalInt(packageId).Err?) ==>
      r.result == Err(ValidationError)
    ensures r.result.Ok? ==>
      var board := OptionalInt(boardId).value;
      var package := OptionalInt(packageId).value;
      var f := r.result.value;
      && a.Member? && formValid
      && (Truthy(board) || Truthy(package))
      && link !in fs
      && r.fundraisers == fs[link := f]
      && f.creator == a.user.id && f.current == 0.0 && f.status == Active && f.donations == []
      && (Truthy(package) ==> RowIn(package.value, packages) && f.target == packages[package.value as nat])
      && (!Truthy(package) ==> RowIn(board.value, boards) && f.target == boards[board.value as nat])
    ensures a.Member? && formValid && OptionalInt(boardId).Ok? && OptionalInt(packageId).Ok? ==>
      var board := OptionalInt(boardId).value;
      var package := OptionalInt(packageId).value;
      && (Truthy(board) && !RowIn(board.value, boards) ==> r.result == Err(ServerError))
      && (Truthy(package) && !RowIn(package.value, packages) ==> r.result == Err(ServerError))
      && (!Truthy(board) && !Truthy(package) ==> r.result == Err(StorageRejected))
      && ((Truthy(board) || Truthy(package)) && (Truthy(board) ==> RowIn(board.value, boards))
            && (Truthy(package) ==> RowIn(package.value, packages)) && link in fs
          ==> r.result == Err(StorageRejected))
    ensures r.result.Ok? <==>
      && a.Member? && formValid && OptionalInt(boardId).Ok? && OptionalInt(packageId).Ok?
      && var board := OptionalInt(boardId).value;
         var package := OptionalInt(packageId).value;
         && (Truthy(board) || Truthy(package))
         && (Truthy(board) ==> RowIn(board.value, boards))
         && (Truthy(package) ==> RowIn(package.value, packages))
         && link !in fs
  {
    match RequireMember(a)
    case Err(e) => FStep(fs, Err(e))
    case Ok(u) =>
      var bf := OptionalInt(boardId);
      var pf := OptionalInt(packageId);
      if !formValid || bf.Err? || pf.Err? then FStep(fs, Err(ValidationError))
      else
        var board, package := bf.value, pf.value;
        if Truthy(board) && !RowIn(board.value, boards) then FStep(fs, Err(ServerError))
        else if Truthy(package) && !RowIn(package.value, packages) then FStep(fs, Err(ServerError))
        else if !Truthy(board) && !Truthy(package) then FStep(fs, Err(StorageRejected))
        else if link in fs then FStep(fs, Err(StorageRejected))
        else
          var boardRow := if Truthy(board) then Some(board.value as nat) else None;
          var packageRow := if Truthy(package) then Some(package.value as nat) else None;
          var target := if packageRow.Some? then packages[packageRow.value] else boards[boardRow.value];
          var f := Fundraiser(u.id, boardRow, packageRow, target, 0.0, Active, []);
          FStep(fs[link := f], Ok(f))
  }

  // ---------------- donations ----------------

  /** The donor's part of a donation request. */
  datatype DonationForm = DonationForm(donorName: string, amount: real, isAnonymous: bool)

  /** The sum of the completed donations. */
  function CompletedSum(ds: seq<Donation>): real {
    if |ds| == 0 then 0.0
    else CompletedSum(ds[..|ds| - 1]) + (if ds[|ds| - 1].status == DonationCompleted then ds[|ds| - 1].amount else 0.0)
  }

  /** `get_donor_count`: the number of completed donations. */
  function DonorCount(ds: seq<Donation>): (n: nat)
    ensures n <= |ds|
  {
    if |ds| == 0 then 0
    else DonorCount(ds[..|ds| - 1]) + (if ds[|ds| - 1].status == DonationCompleted then 1 else 0)
  }

  /** A fundraiser's books balance: its current amount is what its completed
      donations add up to, and a completed fundraiser has met its target. */
  predicate Balanced(f: Fundraiser) {
    && f.current == CompletedSum(f.donations)
    && (f.status == Completed ==> f.current >= f.target)
  }

  predicate AllBalanced(fs: Fundraisers) {
    forall link :: link in fs ==> Balanced(fs[link])
  }

  /** `donate` without its permission gate: only an active fundraiser is
      found; an invalid payload is a validation error; otherwise the
      donation is recorded as completed, its amount (whatever its sign) is
      added to the current amount, and the fundraiser completes once the
      current amount reaches the target. */
  function Donate(fs: Fundraisers, link: string, form: DonationForm, formValid: bool): (r: DStep)
    ensures r.result.Err? ==> r.fundraisers == fs
    ensures link !in fs || fs[link].status != Active ==> r.result == Err(NotFound)
    ensures link in fs && fs[link].status == Active && !formValid ==> r.result == Err(ValidationError)
    ensures r.result.Ok? <==> link in fs && fs[link].status == Active && formValid
    ensures r.result.Ok? ==> link in r.fundraisers
    ensures r.result.Ok? ==>
      var f := fs[link];
      var d := r.result.value;
      var g := r.fundraisers[link];
      && d == Donation(form.donorName, form.amount, form.isAnonymous, DonationCompleted)
      && r.fundraisers == fs[link := g]
      && g.current == f.current + form.amount
      && g.donations == f.donations + [d]
      && (g.status == Completed <==> g.current >= f.target)
      && (g.status != Completed ==> g.status == Active)
      && g.(current := f.current, status := f.status, donations := f.donations) == f
  {
    if link !in fs || fs[link].status != Active then DStep(fs, Err(NotFound))
    else if !formValid then DStep(fs, Err(ValidationError))
    else
      var f := fs[link];
      var d := Donation(form.donorName, form.amount, form.isAnonymous, DonationCompleted);
      var current := f.current + form.amount;
      var g := f.(current := current, status := if current >= f.target then Completed else f.status,
                  donations := f.donations + [d]);
      DStep(fs[link := g], Ok(d))
  }

  /** `donate` as the view declares it: the action's own `AllowAny` is
      overridden by `get_permissions`, which demands a signed-in caller for
      every action but list and retrieve. */
  function DonateAsWritten(fs: Fundraisers, a: Actor, link: string, form: DonationForm, formValid: bool): (r: DStep)
    ensures a.Anonymous? ==> r == DStep(fs, Err(NotAuthenticated))
    ensures a.Member? ==> r == Donate(fs, link, form, formValid)
  {
    if a.Anonymous? then DStep(fs, Err(NotAuthenticated)) else Donate(fs, link, form, formValid)
  }

  /** The declared intent is not what happens: an anonymous donation to an
      active fundraiser with a valid form is refused with 401, while the
      action's own declaration would accept it. */
  lemma AnonymousDonationRefused(fs: Fundraisers, link: string, form: DonationForm)
    requires link in fs && fs[link].status == Active
    ensures DonateAsWritten(fs, Anonymous, link, form, true).result == Err(NotAuthenticated)
    ensures Donate(fs, link, form, true).result.Ok?
  {
  }

  lemma {:induction false} CompletedSumAppend(ds: seq<Donation>, d: Donation)
    ensures CompletedSum(ds + [d]) == CompletedSum(ds) + (if d.status == DonationCompleted then d.amount else 0.0)
  {
    assert (ds + [d])[..|ds|] == ds;
  }

  lemma {:induction false} DonorCountAppend(ds: seq<Donation>, d: Donation)
    ensures DonorCount(ds + [d]) == DonorCount(ds) + (if d.status == DonationCompleted then 1 else 0)
  {
    assert (ds + [d])[..|ds|] == ds;
  }

  /** A donation keeps every fundraiser's books balanced, and counts one
      more donor on the fundraiser it went to. */
  lemma DonateKeepsBooks(fs: Fundraisers, link: string, form: DonationForm, formValid: bool)
    requires AllBalanced(fs)
    ensures AllBalanced(Donate(fs, link, form, formValid).fundraisers)
    ensures Donate(fs, link, form, formValid).result.Ok? ==>
      DonorCount(Donate(fs, link, form, formValid).fundraisers[link].donations) == DonorCount(fs[link].donations) + 1
  {
    var r := Donate(fs, link, form, formValid);
    if r.result.Ok? {
      CompletedSumAppend(fs[link].donations, r.result.value);
      DonorCountAppend(fs[link].donations, r.result.value);
    }
  }

  /** A new fundraiser starts balanced, with nothing raised. */
  lemma CreateKeepsBooks(boards: map<nat, real>, packages: map<nat, real>, fs: Fundraisers, a: Actor,
                         boardId: Field, packageId: Field, formValid: bool, link: string)
    requires AllBalanced(fs)
    ensures AllBalanced(Create(boards, packages, fs, a, boardId, packageId, formValid, link).fundraisers)
  {
  }

  /** Once a donation completes a fundraiser, it takes no more donations. */
  lemma CompletedTakesNoMore(fs: Fundraisers, link: string, form: DonationForm, next: DonationForm, valid: bool)
    requires Donate(fs, link, form, true).result.Ok?
    requires fs[link].current + form.amount >= fs[link].target
    ensures Donate(Donate(fs, link, form, true).fundraisers, link, next, valid).result == Err(NotFound)
  {
  }

  // ---------------- leaderboard ----------------

  /** A leaderboard entry: the donor's name and amount. */
  datatype Entry = Entry(name: string, amount: real)

  predicate Listed(d: Donation) { d.status == DonationCompleted && !d.isAnonymous }

  /** The completed, non-anonymous donations, in their original order. */
  function Eligible(ds: seq<Donation>): (r: seq<Donation>)
    ensures forall i :: 0 <= i < |r| ==> Listed(r[i])
    ensures forall d :: multiset(r)[d] == if Listed(d) then multiset(ds)[d] else 0
  {
    if |ds| == 0 then []
    else
      assert ds == ds[..|ds| - 1] + [ds[|ds| - 1]];
      Eligible(ds[..|ds| - 1]) + (if Listed(ds[|ds| - 1]) then [ds[|ds| - 1]] else [])
  }

  predicate Descending(s: seq<Donation>) {
    forall i, j :: 0 <= i < j < |s| ==> s[i].amount >= s[j].amount
  }

  /** Insert into a list kept in descending order of amount. */
  function Insert(d: Donation, s: seq<Donation>): (r: seq<Donation>)
    requires Descending(s)
    ensures Descending(r)
    ensures multiset(r) == multiset(s) + multiset{d}
  {
    if |s| == 0 then [d]
    else if d.amount >= s[0].amount then [d] + s
    else
      var rest := Insert(d, s[1..]);
      assert s == [s[0]] + s[1..];
      BoundedByMembers(s[0].amount, d, s[1..], rest);
      [s[0]] + rest
  }

  /** A list holding the members of `s` and `d` has no amount above a bound
      that `d` and every member of `s` respect. */
  lemma BoundedByMembers(bound: real, d: Donation, s: seq<Donation>, r: seq<Donation>)
    requires multiset(r) == multiset(s) + multiset{d}
    requires d.amount <= bound
    requires forall i :: 0 <= i < |s| ==> s[i].amount <= bound
    ensures forall k :: 0 <= k < |r| ==> r[k].amount <= bound
  {
    forall k | 0 <= k < |r| ensures r[k].amount <= bound {
      assert r[k] in multiset(r);
      if r[k] != d {
        assert r[k] in multiset(s);
        var j :| 0 <= j < |s| && s[j] == r[k];
      }
    }
  }

  /** Insertion sort by amount, highest first. */
  function SortDescending(s: seq<Donation>): (r: seq<Donation>)
    ensures Descending(r)
    ensures multiset(r) == multiset(s)
  {
    if |s| == 0 then []
    else
      assert s == s[..|s| - 1] + [s[|s| - 1]];
      Insert(s[|s| - 1], SortDescending(s[..|s| - 1]))
  }

  /** The donations `get_leaderboard` shows: the listed ones, highest amount
      first, at most ten. The order among equal amounts is left to the
      database by the source; insertion order is one admissible choice. */
  function TopDonations(ds: seq<Donation>): (r: seq<Donation>)
    ensures |r| == if |Eligible(ds)| < 10 then |Eligible(ds)| else 10
    ensures Descending(r)
    ensures forall i :: 0 <= i < |r| ==> Listed(r[i]) && r[i] in ds
    ensures multiset(r) <= multiset(Eligible(ds))
    ensures forall d, i :: d in multiset(Eligible(ds)) - multiset(r) && 0 <= i < |r| ==> d.amount <= r[i].amount
  {
    var e := Eligible(ds);
    var sorted := SortDescending(e);
    var k := if |sorted| < 10 then |sorted| else 10;
    PrefixOfSorted(sorted, k);
    EligibleMembers(ds, sorted[..k]);
    sorted[..k]
  }

  /** The first `k` of a descending list are at least as large as any of
      the rest. */
  lemma PrefixOfSorted(sorted: seq<Donation>, k: nat)
    requires Descending(sorted) && k <= |sorted|
    ensures Descending(sorted[..k])
    ensures multiset(sorted[..k]) <= multiset(sorted)
    ensures forall d, i :: d in multiset(sorted) - multiset(sorted[..k]) && 0 <= i < k ==> d.amount <= sorted[i].amount
  {
    var top := sorted[..k];
    assert sorted == top + sorted[k..];
    assert multiset(sorted) == multiset(top) + multiset(sorted[k..]);
    forall d, i | d in multiset(sorted) - multiset(top) && 0 <= i < k ensures d.amount <= sorted[i].amount {
      assert d in multiset(sorted[k..]);
      var j :| 0 <= j < |sorted[k..]| && sorted[k..][j] == d;
      assert sorted[k + j] == d;
    }
  }

  /** Whatever is drawn from the eligible donations is listed and was donated. */
  lemma EligibleMembers(ds: seq<Donation>, s: seq<Donation>)
    requires multiset(s) <= multiset(Eligible(ds))
    ensures forall i :: 0 <= i < |s| ==> Listed(s[i]) && s[i] in ds
  {
    forall i | 0 <= i < |s| ensures Listed(s[i]) && s[i] in ds {
      assert s[i] in multiset(s);
      assert multiset(Eligible(ds))[s[i]] > 0;
    }
  }

  /** `get_leaderboard`: name and amount of each top donation. */
  function Leaderboard(ds: seq<Donation>): (r: seq<Entry>)
    ensures |r| == |TopDonations(ds)|
    ensures forall i :: 0 <= i < |r| ==>
      r[i] == Entry(TopDonations(ds)[i].donorName, TopDonations(ds)[i].amount)
  {
    var top := TopDonations(ds);
    seq(|top|, i requires 0 <= i < |top| => Entry(top[i].donorName, top[i].amount))
  }

  /** Anonymous and unfinished donations never reach the leaderboard, and
      a listed donation that is left off is no larger than any shown. */
  lemma LeaderboardIsTopTen(ds: seq<Donation>, d: Donation)
    requires d in ds && Listed(d)
    ensures multiset(TopDonations(ds))[d] < multiset(ds)[d] ==>
      forall i :: 0 <= i < |TopDonations(ds)| ==> d.amount <= TopDonations(ds)[i].amount
    ensures |Eligible(ds)| <= 10 ==> d in TopDonations(ds)
  {
    var e := Eligible(ds);
    var top := TopDonations(ds);
    assert multiset(e)[d] == multiset(ds)[d];
    if multiset(top)[d] < multiset(ds)[d] {
      assert d in multiset(e) - multiset(top);
    }
    if |e| <= 10 {
      assert |top| == |e|;
      assert multiset(top) == multiset(e) by {
        MultisetSubsetSameSize(multiset(top), multiset(e));
      }
      assert d in multiset(top);
    }
  }

  lemma MultisetSubsetSameSize<T>(a: multiset<T>, b: multiset<T>)
    requires a <= b && |a| == |b|
    ensures a == b
  {
    var rest := b - a;
    assert b == a + rest;
    assert |rest| == 0;
  }
}
