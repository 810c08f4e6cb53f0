/** The administrators' user listing (src/app/api/admin/users/route.ts): a
    projection of the users without their password hash, newest `createdAt`
    first, one page at a time. */
module AdminUsers {
  import opened Common
  import opened Entities
  import opened Auth

  /** The selected columns: everything but `passwordHash`. */
  datatype UserView = UserView(
    email: string, fullName: string, phoneNumber: Option<string>, role: string, isActive: bool, createdAt: int)

  function View(u: User): (v: UserView)
    ensures v.email == u.email && v.fullName == u.fullName && v.phoneNumber == u.phoneNumber &&
            v.role == u.role && v.isActive == u.isActive && v.createdAt == u.createdAt
  {
    UserView(u.email, u.fullName, u.phoneNumber, u.role, u.isActive, u.createdAt)
  }

  /** Two users the listing cannot tell apart: they differ at most in the hash. */
  lemma ViewForgetsPassword(u: User, h: string)
    ensures View(u.(passwordHash := h)) == View(u)
    ensures forall w: User :: View(w) == View(u) ==> w == u.(passwordHash := w.passwordHash)
  {
  }

  function ViewsOf(users: seq<User>): (vs: seq<UserView>)
    ensures |vs| == |users| && forall k :: 0 <= k < |vs| ==> vs[k] == View(users[k])
  {
    if users == [] then [] else [View(users[0])] + ViewsOf(users[1..])
  }

  /** The sort key of the listing. */
  function CreatedAt(u: User): int {
    u.createdAt
  }

  /** `order: { createdAt: "DESC" }`. */
  function ByCreatedDesc(users: seq<User>): (r: seq<User>)
    ensures SortedDesc(r, CreatedAt)
    ensures multiset(r) == multiset(users)
  {
    SortDesc(users, CreatedAt)
  }

  /** The handler for `page` and `limit`: skip `(page - 1) x limit` users in
      `createdAt` order, take `limit`, project; `total` counts every user. */
  function List(users: seq<User>, page: int, limit: int): (r: Page<UserView>)
    requires page >= 1 && limit >= 1
    ensures r.total == |users| && r.page == page && r.limit == limit
    ensures r.totalPages == TotalPages(|users|, limit)
    ensures |r.data| == Max(0, Min(limit, |users| - Skip(page, limit)))
    ensures forall k :: 0 <= k < |r.data| ==> r.data[k] == View(ByCreatedDesc(users)[Skip(page, limit) + k])
    ensures SortedDesc(r.data, ViewCreatedAt)
  {
    var sorted := ByCreatedDesc(users);
    var window := Window(sorted, Skip(page, limit), limit);
    WindowSorted(sorted, Skip(page, limit), limit);
    ViewsSorted(window);
    Page(ViewsOf(window), |users|, page, limit, TotalPages(|users|, limit))
  }

  /** The sort key on the projected rows. */
  function ViewCreatedAt(v: UserView): int {
    v.createdAt
  }

  /** A window of a sorted listing is sorted. */
  lemma WindowSorted(s: seq<User>, skip: nat, take: nat)
    requires SortedDesc(s, CreatedAt)
    ensures SortedDesc(Window(s, skip, take), CreatedAt)
  {
    var w := Window(s, skip, take);
    forall i, j | 0 <= i < j < |w| ensures CreatedAt(w[i]) >= CreatedAt(w[j]) {
      assert w[i] == s[skip + i] && w[j] == s[skip + j];
    }
  }

  /** Projecting keeps the order. */
  lemma ViewsSorted(s: seq<User>)
    requires SortedDesc(s, CreatedAt)
    ensures SortedDesc(ViewsOf(s), ViewCreatedAt)
  {
    var v := ViewsOf(s);
    forall i, j | 0 <= i < j < |v| ensures ViewCreatedAt(v[i]) >= ViewCreatedAt(v[j]) {
      assert v[i] == View(s[i]) && v[j] == View(s[j]);
    }
  }

  lemma ViewsOfCons(x: User, s: seq<User>)
    ensures ViewsOf([x] + s) == [View(x)] + ViewsOf(s)
  {
    assert ([x] + s)[1..] == s;
  }

  /** The tail of a sorted listing is sorted. */
  lemma SortedTail(s: seq<User>)
    requires s != [] && SortedDesc(s, CreatedAt)
    ensures SortedDesc(s[1..], CreatedAt)
  {
    forall i, j | 0 <= i < j < |s[1..]| ensures CreatedAt(s[1..][i]) >= CreatedAt(s[1..][j]) {
      assert s[1..][i] == s[i + 1] && s[1..][j] == s[j + 1];
    }
  }

  /** Inserting then projecting is projecting then inserting: where a user
      lands depends on `createdAt` alone. */
  lemma {:induction false} InsertCommutesWithView(x: User, s: seq<User>)
    requires SortedDesc(s, CreatedAt)
    ensures SortedDesc(ViewsOf(s), ViewCreatedAt)
    ensures ViewsOf(InsertDesc(x, s, CreatedAt)) == InsertDesc(View(x), ViewsOf(s), ViewCreatedAt)
  {
    ViewsSorted(s);
    var v := ViewsOf(s);
    if s == [] || CreatedAt(x) >= CreatedAt(s[0]) {
      assert InsertDesc(x, s, CreatedAt) == [x] + s;
      assert InsertDesc(View(x), v, ViewCreatedAt) == [View(x)] + v;
      ViewsOfCons(x, s);
    } else {
      assert s == [s[0]] + s[1..];
      ViewsOfCons(s[0], s[1..]);
      assert v[0] == View(s[0]) && v[1..] == ViewsOf(s[1..]);
      SortedTail(s);
      var t := InsertDesc(x, s[1..], CreatedAt);
      assert InsertDesc(x, s, CreatedAt) == [s[0]] + t;
      InsertCommutesWithView(x, s[1..]);
      assert InsertDesc(View(x), v, ViewCreatedAt) == [v[0]] + InsertDesc(View(x), v[1..], ViewCreatedAt);
      ViewsOfCons(s[0], t);
    }
  }

  /** Sorting then projecting is projecting then sorting. */
  lemma {:induction false} SortCommutesWithView(s: seq<User>)
    ensures ViewsOf(ByCreatedDesc(s)) == SortDesc(ViewsOf(s), ViewCreatedAt)
  {
    if s != [] {
      assert s == [s[0]] + s[1..];
      ViewsOfCons(s[0], s[1..]);
      assert ViewsOf(s)[1..] == ViewsOf(s[1..]);
      SortCommutesWithView(s[1..]);
      InsertCommutesWithView(s[0], ByCreatedDesc(s[1..]));
    }
  }

  /** Tables that differ at most in the hashes look alike. */
  lemma SameViews(s: seq<User>, t: seq<User>)
    requires |s| == |t| && forall k :: 0 <= k < |s| ==> s[k] == t[k].(passwordHash := s[k].passwordHash)
    ensures ViewsOf(s) == ViewsOf(t)
  {
    forall k | 0 <= k < |s| ensures View(s[k]) == View(t[k]) {
      ViewForgetsPassword(t[k], s[k].passwordHash);
    }
  }

  /** Projecting a window is taking the window of the projection. */
  lemma ViewsOfWindow(s: seq<User>, skip: nat, take: nat)
    ensures ViewsOf(Window(s, skip, take)) == Window(ViewsOf(s), skip, take)
  {
  }

  /** The password hashes never reach the response: two user tables that agree
      on every selected column give the same page. */
  lemma ListIgnoresPasswords(s: seq<User>, t: seq<User>, page: int, limit: int)
    requires page >= 1 && limit >= 1
    requires |s| == |t| && forall k :: 0 <= k < |s| ==> s[k] == t[k].(passwordHash := s[k].passwordHash)
    ensures List(s, page, limit) == List(t, page, limit)
  {
    SameViews(s, t);
    SortCommutesWithView(s);
    SortCommutesWithView(t);
    var a, b := ByCreatedDesc(s), ByCreatedDesc(t);
    assert ViewsOf(a) == ViewsOf(b);
    ViewsOfWindow(a, Skip(page, limit), limit);
    ViewsOfWindow(b, Skip(page, limit), limit);
  }

  /** GET behind `withAuth(handler, ADMIN)`, with page 1 and limit 5 as defaults. */
  function Get(
    header: Option<string>, verify: string -> Option<JwtPayload>,
    users: seq<User>, page: Option<int>, limit: Option<int>)
    : (r: Response<Page<UserView>>)
    requires PageParam(page) >= 1 && LimitParam(limit) >= 1
    ensures r.Ok? ==> (Authenticate(header, verify, Some(AdminRole)).Ok? &&
      Authenticate(header, verify, Some(AdminRole)).value.role == AdminRole &&
      r.value == List(users, PageParam(page), LimitParam(limit)))
    ensures Authenticate(header, verify, Some(AdminRole)).Fail? ==> r.Fail? && r.status in {401, 403}
    ensures Authenticate(header, verify, Some(AdminRole)).Ok? ==> r == Ok(List(users, PageParam(page), LimitParam(limit)))
  {
    var p, l := PageParam(page), LimitParam(limit);
    WithAuth(header, verify, Some(AdminRole), (user: JwtPayload) => Ok(List(users, p, l)))
  }
}
