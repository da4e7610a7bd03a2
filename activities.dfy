/**
 * One row of the activity report and the order the report lists rows in.
 *
 * `Activity` is the report's record class: a ckey, the admin's rank and the
 * summed activity, here in whole tenths of a minute. `Compare` is its
 * `compareTo`, which orders by descending activity, and `SortByActivity` is
 * the list's `sort()`: a stable sort under that comparison, so rows with the
 * same activity keep the order the query returned them in.
 */
module Activities {

  /** An activity row; `activity` counts tenths of a minute. */
  datatype Activity = Activity(ckey: string, rank: string, activity: int)

  /** Activity.compareTo: `other.activity.compareTo(activity)`. */
  function Compare(a: Activity, other: Activity): (r: int)
    ensures r < 0 <==> a.activity > other.activity
    ensures r == 0 <==> a.activity == other.activity
    ensures r > 0 <==> a.activity < other.activity
    ensures -1 <= r <= 1
  {
    if other.activity < a.activity then -1
    else if other.activity == a.activity then 0
    else 1
  }

  /** The comparison is antisymmetric and transitive: a total preorder. */
  lemma CompareIsTotalPreorder(a: Activity, b: Activity, c: Activity)
    ensures Compare(a, b) == -Compare(b, a)
    ensures Compare(a, b) <= 0 || Compare(b, a) <= 0
    ensures Compare(a, b) <= 0 && Compare(b, c) <= 0 ==> Compare(a, c) <= 0
  {
  }

  /** Every earlier row compares at most equal to every later one: descending activity. */
  predicate SortedDesc(s: seq<Activity>) {
    forall i, j :: 0 <= i < j < |s| ==> Compare(s[i], s[j]) <= 0
  }

  /** Puts x in front of the first row it does not compare after, keeping ties in order. */
  function Insert(x: Activity, s: seq<Activity>): (r: seq<Activity>)
    requires SortedDesc(s)
    ensures SortedDesc(r)
    ensures multiset(r) == multiset(s) + multiset{x}
    ensures r[0] == x || (s != [] && r[0] == s[0])
  {
    if s == [] || Compare(x, s[0]) <= 0 then
      PrependSorted(x, s);
      [x] + s
    else
      var rest := Insert(x, s[1..]);
      assert s == [s[0]] + s[1..];
      PrependSorted(s[0], rest);
      [s[0]] + rest
  }

  /** A row that compares at most equal to the head of a sorted list can go in front of it. */
  lemma PrependSorted(a: Activity, s: seq<Activity>)
    requires SortedDesc(s)
    requires s != [] ==> Compare(a, s[0]) <= 0
    ensures SortedDesc([a] + s)
  {
    var r := [a] + s;
    forall i, j | 0 <= i < j < |r| ensures Compare(r[i], r[j]) <= 0 {
      if i == 0 && j > 1 {
        assert Compare(s[0], s[j - 1]) <= 0;
      }
    }
  }

  /** List.sort() on the report rows. */
  function SortByActivity(s: seq<Activity>): (r: seq<Activity>)
    ensures SortedDesc(r)
    ensures multiset(r) == multiset(s)
    ensures |r| == |s|
  {
    if s == [] then []
    else
      assert s == [s[0]] + s[1..];
      Insert(s[0], SortByActivity(s[1..]))
  }

  /** Sorting rows that are already in descending order changes nothing. */
  lemma {:induction false} SortKeepsSorted(s: seq<Activity>)
    requires SortedDesc(s)
    ensures SortByActivity(s) == s
  {
    if s != [] {
      SortKeepsSorted(s[1..]);
      assert SortByActivity(s[1..]) == s[1..];
      if |s| > 1 {
        assert Compare(s[0], s[1]) <= 0;
      }
      assert [s[0]] + s[1..] == s;
    }
  }

  /** The rows with activity v, in the order they appear. */
  function WithActivity(s: seq<Activity>, v: int): (r: seq<Activity>)
    ensures forall a :: a in r ==> a in s && a.activity == v
  {
    if s == [] then []
    else (if s[0].activity == v then [s[0]] else []) + WithActivity(s[1..], v)
  }

  lemma WithActivityCons(a: Activity, s: seq<Activity>, v: int)
    ensures WithActivity([a] + s, v) == (if a.activity == v then [a] else []) + WithActivity(s, v)
  {
    assert ([a] + s)[1..] == s;
  }

  /** Inserting x into a sorted list puts it before every row of its own activity. */
  lemma {:induction false} InsertKeepsTies(x: Activity, s: seq<Activity>, v: int)
    requires SortedDesc(s)
    ensures WithActivity(Insert(x, s), v) == (if x.activity == v then [x] else []) + WithActivity(s, v)
  {
    if s == [] || Compare(x, s[0]) <= 0 {
      WithActivityCons(x, s, v);
    } else {
      InsertKeepsTies(x, s[1..], v);
      TiesPassLarger(x, s[0], Insert(x, s[1..]), s[1..], v);
      assert [s[0]] + s[1..] == s;
    }
  }

  /** A row more active than x can stand in front of x without changing x's tie group. */
  lemma TiesPassLarger(x: Activity, h: Activity, rest: seq<Activity>, tail: seq<Activity>, v: int)
    requires x.activity < h.activity
    requires WithActivity(rest, v) == (if x.activity == v then [x] else []) + WithActivity(tail, v)
    ensures WithActivity([h] + rest, v) == (if x.activity == v then [x] else []) + WithActivity([h] + tail, v)
  {
    WithActivityCons(h, rest, v);
    WithActivityCons(h, tail, v);
  }

  /** The sort is stable: rows of equal activity keep their relative order. */
  lemma {:induction false} SortIsStable(s: seq<Activity>, v: int)
    ensures WithActivity(SortByActivity(s), v) == WithActivity(s, v)
  {
    if s != [] {
      SortIsStable(s[1..], v);
      InsertKeepsTies(s[0], SortByActivity(s[1..]), v);
    }
  }
}
