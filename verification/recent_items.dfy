/**
 * base/recent_items.h: a most-recently-used list with a size limit.
 *
 * The std::list is a sequence field, front first.  The caller's predicate
 * (the `Predicate p` template argument) is a function parameter; it is the
 * predicate, not the item, that decides which entry is "the same".
 */
module RecentItems {

  /** std::find_if: the index of the first element satisfying `p`, or `|s|` when none does. */
  function FindIf<T>(s: seq<T>, p: T -> bool): (i: nat)
    ensures i <= |s|
    ensures i < |s| ==> p(s[i])
    ensures forall k :: 0 <= k < i ==> !p(s[k])
  {
    if s == [] then 0 else if p(s[0]) then 0 else 1 + FindIf(s[1..], p)
  }

  /** `s` without the element at `i`. */
  function Erase<T>(s: seq<T>, i: nat): (r: seq<T>)
    requires i < |s|
    ensures |r| == |s| - 1
    ensures forall k :: 0 <= k < i ==> r[k] == s[k]
    ensures forall k :: i <= k < |r| ==> r[k] == s[k + 1]
  {
    s[..i] + s[i + 1..]
  }

  /** The first `n` elements of `s`, or all of them when there are fewer. */
  function Take<T>(s: seq<T>, n: nat): (r: seq<T>)
    ensures |r| == if n < |s| then n else |s|
    ensures forall k :: 0 <= k < |r| ==> r[k] == s[k]
  {
    if n < |s| then s[..n] else s
  }

  /**
   * The list after `addItem(item, p)`: an entry matching `p` moves to the
   * front (replaced by `item`) and the length stays; otherwise `item` is
   * pushed in front, unless the limit is 0, and the list is cut to the
   * limit from the back.
   */
  function Added<T>(items: seq<T>, limit: nat, item: T, p: T -> bool): (r: seq<T>)
    ensures var i := FindIf(items, p);
            i < |items| ==> |r| == |items| && r[0] == item && r[1..] == Erase(items, i)
    ensures FindIf(items, p) == |items| && limit > 0 ==>
              |r| == (if limit < |items| + 1 then limit else |items| + 1) &&
              r[0] == item && r[1..] == items[..|r| - 1]
    ensures FindIf(items, p) == |items| && limit == 0 ==> r == []
  {
    var i := FindIf(items, p);
    if i < |items| then [item] + Erase(items, i)
    else if limit > 0 then Take([item] + items, limit)
    else Take(items, 0)
  }

  /** The list after `removeItem(item, p)`: the first entry matching `p` is erased. */
  function Removed<T>(items: seq<T>, p: T -> bool): (r: seq<T>)
    ensures FindIf(items, p) == |items| <==> r == items
    ensures FindIf(items, p) < |items| ==> r == Erase(items, FindIf(items, p))
  {
    var i := FindIf(items, p);
    if i < |items| then Erase(items, i) else items
  }

  /** A list that starts within its limit stays within it after `addItem`. */
  lemma AddedWithinLimit<T>(items: seq<T>, limit: nat, item: T, p: T -> bool)
    requires |items| <= limit
    ensures |Added(items, limit, item, p)| <= limit
  {
  }

  /** Adding the same item twice leaves the list as adding it once, when `p` recognises that item. */
  lemma AddedTwice<T>(items: seq<T>, limit: nat, item: T, p: T -> bool)
    requires p(item) && limit > 0
    ensures Added(Added(items, limit, item, p), limit, item, p) == Added(items, limit, item, p)
  {
    var once := Added(items, limit, item, p);
    assert FindIf(once, p) == 0;
    assert once == [once[0]] + once[1..];
  }

  /** Removing what was just added (as a new entry) gives back the list cut to the space left for it. */
  lemma RemoveAfterAdd<T>(items: seq<T>, limit: nat, item: T, p: T -> bool)
    requires limit > 0 && p(item) && FindIf(items, p) == |items|
    ensures Removed(Added(items, limit, item, p), p) == Take(items, limit - 1)
  {
    var once := Added(items, limit, item, p);
    assert FindIf(once, p) == 0;
  }

  /** A recent-items list: `items` is the std::list, front first, and `limit` is `m_limit`. */
  class RecentItems<T> {
    var items: seq<T>
    var limit: nat

    /** The list never holds more entries than its limit. */
    ghost predicate Valid()
      reads this
    {
      |items| <= limit
    }

    constructor (limit: nat)
      ensures Valid() && items == [] && this.limit == limit
    {
      items := [];
      this.limit := limit;
    }

    method Clear()
      modifies this
      ensures items == [] && limit == old(limit) && Valid()
    {
      items := [];
    }

    method AddItem(item: T, p: T -> bool)
      requires Valid()
      modifies this
      ensures items == Added(old(items), limit, item, p) && limit == old(limit)
      ensures Valid()
    {
      var i := FindIf(items, p);
      if i < |items| {
        items := [item] + Erase(items, i);
        return;
      }
      if limit > 0 {
        items := [item] + items;
      }
      ghost var grown := items;
      while |items| > limit
        invariant |items| <= |grown| && items == grown[..|items|]
        invariant limit <= |items| || items == grown
        invariant limit == old(limit)
        decreases |items|
      {
        items := items[..|items| - 1];
      }
      assert items == Take(grown, limit);
    }

    method RemoveItem(p: T -> bool)
      requires Valid()
      modifies this
      ensures items == Removed(old(items), p) && limit == old(limit)
      ensures Valid()
    {
      var i := FindIf(items, p);
      if i < |items| {
        items := Erase(items, i);
      }
    }

    /** setLimit(newLimit): entries beyond the new limit are dropped from the back. */
    method SetLimit(newLimit: nat)
      modifies this
      ensures items == Take(old(items), newLimit) && limit == newLimit
      ensures Valid()
    {
      if newLimit < |items| {
        items := items[..newLimit];
      }
      limit := newLimit;
    }
  }
}
