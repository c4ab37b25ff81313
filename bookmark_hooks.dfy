/**
 * The bookmark helpers layered over the store: the bookmarked employees,
 * toggling one bookmark, clearing them all, and the bookmark count.
 */
module BookmarkHooks {
  import opened Seqs
  import opened Employees
  import opened Store

  /** `getBookmarkedUsers`: the employees whose id is bookmarked, in list order. */
  function BookmarkedUsers(users: seq<User>, bookmarks: seq<int>): (r: seq<User>)
    ensures IsSubseq(r, users)
    ensures forall u :: u in r <==> u in users && u.id in bookmarks
  {
    FilterIsSubseq(users, (u: User) => u.id in bookmarks);
    Filter(users, (u: User) => u.id in bookmarks)
  }

  /** Each employee appears as often as in `users` when bookmarked and not at
      all otherwise: repeating an id in `bookmarks` lists nobody twice. */
  lemma BookmarkedUsersMultiplicity(users: seq<User>, bookmarks: seq<int>, u: User)
    ensures multiset(BookmarkedUsers(users, bookmarks))[u] == if u.id in bookmarks then multiset(users)[u] else 0
  {
    FilterMultiset(users, (v: User) => v.id in bookmarks, u);
  }

  /** Only the set of bookmarked ids matters, not its order or repetitions. */
  lemma BookmarkedUsersBySet(users: seq<User>, b1: seq<int>, b2: seq<int>)
    requires forall id :: id in b1 <==> id in b2
    ensures BookmarkedUsers(users, b1) == BookmarkedUsers(users, b2)
  {
    FilterAgree(users, (u: User) => u.id in b1, (u: User) => u.id in b2);
  }

  /** A bookmarked id that belongs to no employee adds nobody. */
  lemma UnmatchedBookmarkIgnored(users: seq<User>, bookmarks: seq<int>, id: int)
    requires id !in IdsOf(users)
    ensures BookmarkedUsers(users, bookmarks + [id]) == BookmarkedUsers(users, bookmarks)
  {
    forall u | u in users ensures (u.id in bookmarks + [id]) == (u.id in bookmarks) {
      var i :| 0 <= i < |users| && users[i] == u;
      assert IdsOf(users)[i] == u.id;
    }
    FilterAgree(users, (u: User) => u.id in bookmarks + [id], (u: User) => u.id in bookmarks);
  }

  /** With distinct employees, nobody is listed twice. */
  lemma BookmarkedUsersNoDups(users: seq<User>, bookmarks: seq<int>)
    requires NoDups(users)
    ensures NoDups(BookmarkedUsers(users, bookmarks))
  {
    FilterNoDups(users, (u: User) => u.id in bookmarks);
  }

  /** `toggleBookmark`: removes a bookmarked id, adds any other, and answers
      whether the id is bookmarked afterwards. */
  method ToggleBookmark(store: Store, id: int) returns (now: bool)
    modifies store
    ensures now <==> id !in old(store.bookmarks)
    ensures now <==> store.IsBookmarked(id)
    ensures store.State() == old(store.State()).(bookmarks :=
      if now then old(store.bookmarks) + [id] else Without(old(store.bookmarks), id))
  {
    if store.IsBookmarked(id) {
      store.RemoveBookmark(id);
      now := false;
    } else {
      store.AddBookmark(id);
      now := true;
    }
  }

  /** `ids.forEach(id => removeBookmark(id))`: each call removes one id from
      the bookmarks the previous call left. */
  method RemoveEach(store: Store, ids: seq<int>)
    modifies store
    ensures store.State() == old(store.State()).(bookmarks := Filter(old(store.bookmarks), (x: int) => x !in ids))
    ensures forall id | id in ids :: !store.IsBookmarked(id)
  {
    ghost var start := store.bookmarks;
    FilterKeepsAll(start, (x: int) => x !in ids[..0]);
    for i := 0 to |ids|
      invariant store.bookmarks == Filter(start, (x: int) => x !in ids[..i])
      invariant store.State() == old(store.State()).(bookmarks := store.bookmarks)
    {
      store.RemoveBookmark(ids[i]);
      RemoveStep(start, ids, i);
    }
    assert ids[..|ids|] == ids;
  }

  /** One turn of the loop: removing `ids[i]` extends the removed prefix. */
  lemma RemoveStep(start: seq<int>, ids: seq<int>, i: nat)
    requires i < |ids|
    ensures Without(Filter(start, (x: int) => x !in ids[..i]), ids[i]) == Filter(start, (x: int) => x !in ids[..i + 1])
  {
    WithoutAfterFilter(start, ids[..i], ids[i], ids[..i + 1]);
  }

  /** `clearAllBookmarks`: removes each id of a snapshot of the list in turn,
      which leaves no bookmark at all. */
  method ClearAllBookmarks(store: Store)
    modifies store
    ensures store.State() == old(store.State()).(bookmarks := [])
  {
    var snapshot := store.bookmarks;
    RemoveEach(store, snapshot);
    FilterRejectsAll(snapshot, (x: int) => x !in snapshot);
  }

  /** Removing one more id from what is left after removing `gone`. */
  lemma WithoutAfterFilter(s: seq<int>, gone: seq<int>, y: int, next: seq<int>)
    requires next == gone + [y]
    ensures Without(Filter(s, (x: int) => x !in gone), y) == Filter(s, (x: int) => x !in next)
  {
    var p := (x: int) => x !in gone;
    var q := (z: int) => z != y;
    var pq := (x: int) => x !in next;
    assert forall x :: pq(x) == (p(x) && q(x));
    FilterTwice(s, p, q, pq);
    WithoutIsFilter(Filter(s, p), y, q);
  }

  /** `bookmarkCount`: the length of the list, repeats included. It is zero
      exactly when nothing is bookmarked, and never below the number of
      distinct bookmarked ids. */
  function BookmarkCount(bookmarks: seq<int>): (n: nat)
    ensures n == 0 <==> bookmarks == []
    ensures n >= |Distinct(bookmarks)|
  {
    |bookmarks|
  }

  /** Adding an id that is already bookmarked, which `addBookmark` allows,
      raises the count while the bookmarked employees stay the same. */
  lemma RepeatedBookmarkCounted(users: seq<User>, bookmarks: seq<int>, id: int)
    requires id in bookmarks
    ensures BookmarkCount(bookmarks + [id]) == BookmarkCount(bookmarks) + 1
    ensures BookmarkedUsers(users, bookmarks + [id]) == BookmarkedUsers(users, bookmarks)
    ensures Distinct(bookmarks + [id]) == Distinct(bookmarks)
  {
    DistinctSnoc(bookmarks, id);
    BookmarkedUsersBySet(users, bookmarks + [id], bookmarks);
  }

  /** `isBookmarked(u.id)` agrees with membership of `getBookmarkedUsers()`
      for every employee of the store. */
  lemma IsBookmarkedIffListed(store: Store, u: User)
    requires u in store.users
    ensures store.IsBookmarked(u.id) <==> u in BookmarkedUsers(store.users, store.bookmarks)
  {
  }
}
