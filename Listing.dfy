/** The cart listing of `GET /cart`: an optional substring filter, then newest first. */
module Listing {
  import opened Results
  import opened Text
  import opened Entities

  /** A row is listed when there is no search string, or when its service or its participants
      contain the search string. */
  function Matches(c: Cart, search: Option<string>): (r: bool)
    ensures r <==> || search.None?
                   || (exists i :: OccursAt(c.service, search.value, i))
                   || (exists i :: OccursAt(c.participants, search.value, i))
  {
    search.None? || Contains(c.service, search.value) || Contains(c.participants, search.value)
  }

  /** The `Where` of the listing: each matching row exactly as often as it is in the table, and
      no other row; with no search string, the table itself. */
  function Filter(t: seq<Cart>, search: Option<string>): (r: seq<Cart>)
    ensures forall c :: multiset(r)[c] == if Matches(c, search) then multiset(t)[c] else 0
    ensures search.None? ==> r == t
  {
    if t == [] then []
    else
      assert t == [t[0]] + t[1..];
      (if Matches(t[0], search) then [t[0]] else []) + Filter(t[1..], search)
  }

  /** Creation times never increase along `s`. */
  predicate NewestFirst(s: seq<Cart>) {
    forall i, j :: 0 <= i < j < |s| ==> s[i].createdAt >= s[j].createdAt
  }

  /** Puts `c` into a newest-first sequence, in front of the rows created at the same time. */
  function InsertNewestFirst(c: Cart, s: seq<Cart>): (r: seq<Cart>)
    requires NewestFirst(s)
    ensures NewestFirst(r)
    ensures multiset(r) == multiset(s) + multiset{c}
  {
    if s == [] || c.createdAt >= s[0].createdAt then
      PrependNewestFirst(c, s);
      [c] + s
    else
      var rest := InsertNewestFirst(c, s[1..]);
      NoNewerThanHead(c, s, rest);
      PrependNewestFirst(s[0], rest);
      assert s == [s[0]] + s[1..];
      [s[0]] + rest
  }

  /** A row at least as new as every row of a newest-first sequence can go in front of it. */
  lemma PrependNewestFirst(x: Cart, s: seq<Cart>)
    requires NewestFirst(s)
    requires s == [] || x.createdAt >= s[0].createdAt
    ensures NewestFirst([x] + s)
  {
    var r := [x] + s;
    forall i, j | 0 <= i < j < |r| ensures r[i].createdAt >= r[j].createdAt {
      if i == 0 {
        assert r[j] == s[j - 1];
        assert s[0].createdAt >= s[j - 1].createdAt;
      } else {
        assert r[i] == s[i - 1] && r[j] == s[j - 1];
      }
    }
  }

  /** Inserting an older row into the tail keeps the head the newest. */
  lemma NoNewerThanHead(c: Cart, s: seq<Cart>, rest: seq<Cart>)
    requires NewestFirst(s) && s != [] && c.createdAt < s[0].createdAt
    requires multiset(rest) == multiset(s[1..]) + multiset{c}
    ensures rest == [] || s[0].createdAt >= rest[0].createdAt
  {
    if rest != [] {
      assert rest[0] in multiset(rest);
      if rest[0] != c {
        assert rest[0] in s[1..];
        var k :| 0 <= k < |s[1..]| && s[1..][k] == rest[0];
        assert s[k + 1] == rest[0];
      }
    }
  }

  /** `OrderByDescending(x => x.CreatedAt)`: the same rows, newest first. */
  function SortNewestFirst(s: seq<Cart>): (r: seq<Cart>)
    ensures NewestFirst(r)
    ensures multiset(r) == multiset(s)
  {
    if s == [] then []
    else
      assert s == [s[0]] + s[1..];
      InsertNewestFirst(s[0], SortNewestFirst(s[1..]))
  }
}
