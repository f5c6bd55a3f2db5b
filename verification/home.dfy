/** The storefront home page: products grouped into one bucket per
    subcategory name, in the order `getProducts` returned them. */
module Home {
  import opened Common
  import opened Js
  import opened Catalog

  /** One entry of `productsBySubcategory`. */
  datatype Bucket = Bucket(key: string, items: seq<Product>)

  /** `getSubcategoryName`: the name of the first subcategory whose id is
      `===` to `id`, or 'Other'. */
  function GetSubcategoryName(subs: seq<Subcategory>, id: Value): (r: string)
    ensures !Truthy(id) ==> r == "Other"
    ensures r == "Other" || exists i :: 0 <= i < |subs| && IdValue(subs[i].id) == id && subs[i].name == r
    ensures forall i :: 0 <= i < |subs| && Truthy(id) && IdValue(subs[i].id) == id
                        && (forall j :: 0 <= j < i ==> IdValue(subs[j].id) != id)
                        ==> r == subs[i].name
  {
    SubcategoryName(subs, id, "Other")
  }

  /** Only products with a truthy `subcategory_id` are grouped at all. */
  predicate Bucketed(p: Product) {
    Truthy(p.subcategoryId)
  }

  function KeyOf(subs: seq<Subcategory>, p: Product): string {
    GetSubcategoryName(subs, p.subcategoryId)
  }

  /** The test that puts a product in the bucket named `key`. */
  function InBucket(subs: seq<Subcategory>, key: string): Product -> bool {
    (p: Product) => Bucketed(p) && KeyOf(subs, p) == key
  }

  /** The products the bucket `key` should hold: the grouped ones with that
      name, in fetched order. */
  function Members(ps: seq<Product>, subs: seq<Subcategory>, key: string): seq<Product> {
    Filter(ps, InBucket(subs, key))
  }

  predicate DistinctKeys(bs: seq<Bucket>) {
    forall i, j :: 0 <= i < j < |bs| ==> bs[i].key != bs[j].key
  }

  /** `bs` groups `ps`: keys are distinct, no bucket is empty, each bucket
      holds exactly its members in fetched order, and every grouped product
      has a bucket. */
  predicate Groups(bs: seq<Bucket>, ps: seq<Product>, subs: seq<Subcategory>) {
    && DistinctKeys(bs)
    && (forall i :: 0 <= i < |bs| ==> bs[i].items != [])
    && (forall i :: 0 <= i < |bs| ==> bs[i].items == Members(ps, subs, bs[i].key))
    && (forall k :: 0 <= k < |ps| && Bucketed(ps[k]) ==>
          exists i :: 0 <= i < |bs| && bs[i].key == KeyOf(subs, ps[k]))
  }

  /** Where `key` already has a bucket. */
  function BucketIndex(bs: seq<Bucket>, key: string): (r: Option<nat>)
    ensures r.Some? ==> r.value < |bs| && bs[r.value].key == key
    ensures r.None? <==> forall i :: 0 <= i < |bs| ==> bs[i].key != key
  {
    FirstIndex(bs, (b: Bucket) => b.key == key)
  }

  /** The names every plain object inherits from `Object.prototype`.
      Indexing `productsBySubcategory` with one of them finds the inherited
      member, which is truthy and has no `push`. */
  const PrototypeNames: set<string> := {
    "constructor", "hasOwnProperty", "isPrototypeOf", "propertyIsEnumerable",
    "toLocaleString", "toString", "valueOf", "__proto__",
    "__defineGetter__", "__defineSetter__", "__lookupGetter__", "__lookupSetter__"
  }

  predicate Inherited(key: string) {
    key in PrototypeNames
  }

  /** One `forEach` step: push `p` onto the bucket `key`, creating the
      bucket at the end when it does not exist yet.  For an inherited name
      no bucket is created (the inherited member is truthy) and the `push`
      throws a TypeError: `None`. */
  function Place(bs: seq<Bucket>, key: string, p: Product): (r: Option<seq<Bucket>>)
    requires DistinctKeys(bs)
    ensures r.None? <==> Inherited(key)
    ensures r.Some? ==> forall i :: 0 <= i < |bs| && bs[i].key == key ==>
              |r.value| == |bs| && r.value[i].items == bs[i].items + [p]
    ensures r.Some? && (forall i :: 0 <= i < |bs| ==> bs[i].key != key) ==> r.value == bs + [Bucket(key, [p])]
    ensures r.Some? ==> |bs| <= |r.value|
    ensures r.Some? ==> forall i :: 0 <= i < |bs| && bs[i].key != key ==> r.value[i] == bs[i]
    ensures r.Some? ==> forall i :: 0 <= i < |r.value| ==> r.value[i].key == key || (i < |bs| && r.value[i] == bs[i])
    ensures r.Some? ==> forall i :: 0 <= i < |bs| ==> r.value[i].key == bs[i].key
  {
    if Inherited(key) then None
    else match BucketIndex(bs, key)
      case Some(i) => Some(bs[i := Bucket(key, bs[i].items + [p])])
      case None => Some(bs + [Bucket(key, [p])])
  }

  /** The product whose step throws: a grouped one whose name is inherited. */
  predicate Breaks(subs: seq<Subcategory>, p: Product) {
    Bucketed(p) && Inherited(KeyOf(subs, p))
  }

  /** How many products the loop places before the first step that
      throws; `|ps|` when none does. */
  function FirstBreak(ps: seq<Product>, subs: seq<Subcategory>): (r: nat)
    ensures r <= |ps|
    ensures forall k :: 0 <= k < r ==> !Breaks(subs, ps[k])
    ensures r < |ps| ==> Breaks(subs, ps[r])
  {
    match FirstIndex(ps, (p: Product) => Breaks(subs, p))
    case Some(i) => i
    case None => |ps|
  }

  /** Any position with the three properties above is the first break. */
  lemma FirstBreakUnique(ps: seq<Product>, subs: seq<Subcategory>, n: nat)
    requires n <= |ps|
    requires forall k :: 0 <= k < n ==> !Breaks(subs, ps[k])
    requires n < |ps| ==> Breaks(subs, ps[n])
    ensures FirstBreak(ps, subs) == n
  {
  }

  lemma FirstBreakSnoc(front: seq<Product>, p: Product, subs: seq<Subcategory>)
    ensures FirstBreak(front + [p], subs)
            == if FirstBreak(front, subs) < |front| then FirstBreak(front, subs)
               else if Breaks(subs, p) then |front| else |front| + 1
  {
    var ps := front + [p];
    var n := FirstBreak(front, subs);
    var m := if n < |front| then n else if Breaks(subs, p) then |front| else |front| + 1;
    forall k | 0 <= k < m
      ensures !Breaks(subs, ps[k])
    {
      if k < |front| {
        assert ps[k] == front[k];
      }
    }
    if n < |front| {
      assert ps[n] == front[n];
    }
    FirstBreakUnique(ps, subs, m);
  }

  /** What the grouping loop leaves: the buckets built so far, and whether
      a step threw (which ends the `forEach` and lands in the `catch`). */
  datatype Run = Run(buckets: seq<Bucket>, threw: bool)

  /** The products the loop gets through: those before the first step
      that throws. */
  function Placed(ps: seq<Product>, subs: seq<Subcategory>): (r: seq<Product>)
    ensures |r| <= |ps| && r == ps[..|r|]
    ensures forall k :: 0 <= k < |r| ==> !Breaks(subs, r[k])
    ensures |r| < |ps| ==> Breaks(subs, ps[|r|])
  {
    ps[..FirstBreak(ps, subs)]
  }

  lemma PlacedSnoc(front: seq<Product>, p: Product, subs: seq<Subcategory>)
    ensures Placed(front + [p], subs)
            == if |Placed(front, subs)| < |front| then Placed(front, subs)
               else if Breaks(subs, p) then front else front + [p]
    ensures |Placed(front, subs)| == |front| ==> Placed(front, subs) == front
  {
    var ps := front + [p];
    FirstBreakSnoc(front, p, subs);
    if FirstBreak(front, subs) < |front| {
      assert ps[..FirstBreak(front, subs)] == front[..FirstBreak(front, subs)];
    } else if Breaks(subs, p) {
      assert ps[..|front|] == front;
    } else {
      assert ps[..|ps|] == ps;
    }
    if |Placed(front, subs)| == |front| {
      assert front[..|front|] == front;
    }
  }

  /** One iteration of the `forEach`: nothing happens once a step has
      thrown; a product with a falsy `subcategory_id` is skipped; any other
      is placed, which may throw. */
  function Step(prev: Run, p: Product, subs: seq<Subcategory>): (r: Run)
    requires DistinctKeys(prev.buckets)
    ensures prev.threw ==> r == prev
    ensures !prev.threw ==> (r.threw <==> Breaks(subs, p))
  {
    if prev.threw || !Bucketed(p) then prev
    else match Place(prev.buckets, KeyOf(subs, p), p)
      case None => Run(prev.buckets, true)
      case Some(bs) => Run(bs, false)
  }

  /** The grouping loop of `loadData`, over the products as fetched.  It
      stops at the first product whose step throws; the buckets group
      exactly the products before it. */
  function Group(ps: seq<Product>, subs: seq<Subcategory>): (r: Run)
    ensures r.threw <==> |Placed(ps, subs)| < |ps|
    ensures Groups(r.buckets, Placed(ps, subs), subs)
    decreases |ps|
  {
    if ps == [] then Run([], false)
    else
      var front := ps[..|ps| - 1];
      var p := ps[|ps| - 1];
      assert ps == front + [p];
      StepKeepsGrouping(Group(front, subs), front, p, subs);
      Step(Group(front, subs), p, subs)
  }

  lemma StepKeepsGrouping(prev: Run, front: seq<Product>, p: Product, subs: seq<Subcategory>)
    requires prev.threw <==> |Placed(front, subs)| < |front|
    requires Groups(prev.buckets, Placed(front, subs), subs)
    ensures Step(prev, p, subs).threw <==> |Placed(front + [p], subs)| < |front + [p]|
    ensures Groups(Step(prev, p, subs).buckets, Placed(front + [p], subs), subs)
  {
    PlacedSnoc(front, p, subs);
    if !prev.threw {
      if !Bucketed(p) {
        SkipKeepsGrouping(prev.buckets, front, p, subs);
      } else if !Inherited(KeyOf(subs, p)) {
        PlaceKeepsGrouping(prev.buckets, front, p, subs);
      }
    }
  }

  lemma MembersSnoc(front: seq<Product>, p: Product, subs: seq<Subcategory>, key: string)
    ensures Members(front + [p], subs, key)
            == Members(front, subs, key) + (if InBucket(subs, key)(p) then [p] else [])
  {
    FilterConcat(front, [p], InBucket(subs, key));
    assert [p][1..] == [];
  }

  lemma SkipKeepsGrouping(bs: seq<Bucket>, front: seq<Product>, p: Product, subs: seq<Subcategory>)
    requires Groups(bs, front, subs)
    requires !Bucketed(p)
    ensures Groups(bs, front + [p], subs)
  {
    var ps := front + [p];
    forall i | 0 <= i < |bs|
      ensures bs[i].items == Members(ps, subs, bs[i].key)
    {
      MembersSnoc(front, p, subs, bs[i].key);
    }
    forall k | 0 <= k < |ps| && Bucketed(ps[k])
      ensures exists i :: 0 <= i < |bs| && bs[i].key == KeyOf(subs, ps[k])
    {
      assert ps[k] == front[k];
    }
  }

  lemma PlaceKeepsGrouping(bs: seq<Bucket>, front: seq<Product>, p: Product, subs: seq<Subcategory>)
    requires Groups(bs, front, subs)
    requires Bucketed(p) && !Inherited(KeyOf(subs, p))
    ensures Groups(Place(bs, KeyOf(subs, p), p).value, front + [p], subs)
  {
    PlaceKeepsMembers(bs, front, p, subs);
    PlaceKeepsDistinct(bs, KeyOf(subs, p), p);
    PlaceKeepsCover(bs, front, p, subs);
  }

  /** A key with no bucket yet has no members among the products grouped
      so far. */
  lemma NewKeyHasNoMembers(bs: seq<Bucket>, front: seq<Product>, subs: seq<Subcategory>, key: string)
    requires Groups(bs, front, subs)
    requires forall j :: 0 <= j < |bs| ==> bs[j].key != key
    ensures Members(front, subs, key) == []
  {
    forall k | 0 <= k < |front|
      ensures !InBucket(subs, key)(front[k])
    {
      if Bucketed(front[k]) {
        var j :| 0 <= j < |bs| && bs[j].key == KeyOf(subs, front[k]);
      }
    }
    FilterKeepsNone(front, InBucket(subs, key));
  }

  lemma PlaceKeepsMembers(bs: seq<Bucket>, front: seq<Product>, p: Product, subs: seq<Subcategory>)
    requires Groups(bs, front, subs)
    requires Bucketed(p) && !Inherited(KeyOf(subs, p))
    ensures var r := Place(bs, KeyOf(subs, p), p).value;
      forall i :: 0 <= i < |r| ==> r[i].items != [] && r[i].items == Members(front + [p], subs, r[i].key)
  {
    var key := KeyOf(subs, p);
    var r := Place(bs, key, p).value;
    forall i | 0 <= i < |r|
      ensures r[i].items != [] && r[i].items == Members(front + [p], subs, r[i].key)
    {
      MembersSnoc(front, p, subs, r[i].key);
      if r[i].key == key && i >= |bs| {
        NewKeyHasNoMembers(bs, front, subs, key);
      }
    }
  }

  lemma PlaceKeepsDistinct(bs: seq<Bucket>, key: string, p: Product)
    requires DistinctKeys(bs) && !Inherited(key)
    ensures DistinctKeys(Place(bs, key, p).value)
  {
    var r := Place(bs, key, p).value;
    if forall i :: 0 <= i < |bs| ==> bs[i].key != key {
      assert r == bs + [Bucket(key, [p])];
    } else {
      assert |r| == |bs|;
    }
  }

  lemma PlaceKeepsCover(bs: seq<Bucket>, front: seq<Product>, p: Product, subs: seq<Subcategory>)
    requires Groups(bs, front, subs)
    requires Bucketed(p) && !Inherited(KeyOf(subs, p))
    ensures var r := Place(bs, KeyOf(subs, p), p).value; var ps := front + [p];
      forall k :: 0 <= k < |ps| && Bucketed(ps[k]) ==>
        exists i :: 0 <= i < |r| && r[i].key == KeyOf(subs, ps[k])
  {
    var ps := front + [p];
    var key := KeyOf(subs, p);
    var r := Place(bs, key, p).value;
    forall k | 0 <= k < |ps| && Bucketed(ps[k])
      ensures exists i :: 0 <= i < |r| && r[i].key == KeyOf(subs, ps[k])
    {
      if k < |front| {
        assert ps[k] == front[k];
        var i :| 0 <= i < |bs| && bs[i].key == KeyOf(subs, front[k]);
        assert r[i].key == bs[i].key;
      } else {
        assert ps[k] == p;
        if forall i :: 0 <= i < |bs| ==> bs[i].key != key {
          assert r[|bs|].key == key;
        } else {
          var i :| 0 <= i < |bs| && bs[i].key == key;
          assert r[i].key == key;
        }
      }
    }
  }

  // ------------------------------------------------------------ bucket sizes

  function SumSizes(bs: seq<Bucket>): nat
    decreases |bs|
  {
    if bs == [] then 0 else |bs[0].items| + SumSizes(bs[1..])
  }

  lemma {:induction false} SumSizesAppend(bs: seq<Bucket>, b: Bucket)
    ensures SumSizes(bs + [b]) == SumSizes(bs) + |b.items|
    decreases |bs|
  {
    if bs != [] {
      assert (bs + [b])[1..] == bs[1..] + [b];
      SumSizesAppend(bs[1..], b);
    }
  }

  lemma {:induction false} SumSizesUpdate(bs: seq<Bucket>, i: nat, b: Bucket)
    requires i < |bs|
    ensures SumSizes(bs[i := b]) == SumSizes(bs) - |bs[i].items| + |b.items|
    decreases |bs|
  {
    if i > 0 {
      assert bs[i := b][1..] == bs[1..][i - 1 := b];
      SumSizesUpdate(bs[1..], i - 1, b);
    }
  }

  lemma PlaceAddsOne(bs: seq<Bucket>, key: string, p: Product)
    requires DistinctKeys(bs) && !Inherited(key)
    ensures SumSizes(Place(bs, key, p).value) == SumSizes(bs) + 1
  {
    match BucketIndex(bs, key)
    case Some(i) =>
      SumSizesUpdate(bs, i, Bucket(key, bs[i].items + [p]));
    case None =>
      SumSizesAppend(bs, Bucket(key, [p]));
  }

  /** Every placed product lands in exactly one bucket once: the bucket
      sizes add up to the number of products with a truthy
      `subcategory_id` before the first step that throws. */
  lemma {:induction false} GroupSizes(ps: seq<Product>, subs: seq<Subcategory>)
    ensures SumSizes(Group(ps, subs).buckets) == |Filter(Placed(ps, subs), Bucketed)|
    decreases |ps|
  {
    if ps != [] {
      var front := ps[..|ps| - 1];
      var p := ps[|ps| - 1];
      assert ps == front + [p];
      GroupSizes(front, subs);
      PlacedSnoc(front, p, subs);
      if |Placed(front, subs)| == |front| && !Breaks(subs, p) {
        FilterConcat(front, [p], Bucketed);
        assert [p][1..] == [];
        if Bucketed(p) {
          PlaceAddsOne(Group(front, subs).buckets, KeyOf(subs, p), p);
        }
      }
    }
  }

  /** Products whose `subcategory_id` is falsy are in no bucket. */
  lemma UnbucketedNowhere(ps: seq<Product>, subs: seq<Subcategory>, p: Product)
    requires !Bucketed(p)
    ensures var bs := Group(ps, subs).buckets;
      forall i :: 0 <= i < |bs| ==> p !in bs[i].items
  {
  }

  /** A product placed before the loop stopped sits in the bucket of its
      subcategory name, and in no other bucket. */
  lemma BucketOfProduct(ps: seq<Product>, subs: seq<Subcategory>, k: nat)
    requires k < |Placed(ps, subs)| && Bucketed(ps[k])
    ensures exists i :: 0 <= i < |Group(ps, subs).buckets| && HoldsAt(Group(ps, subs).buckets, i, KeyOf(subs, ps[k]), ps[k])
    ensures forall i :: 0 <= i < |Group(ps, subs).buckets| && Group(ps, subs).buckets[i].key != KeyOf(subs, ps[k])
                        ==> ps[k] !in Group(ps, subs).buckets[i].items
  {
    var qs := Placed(ps, subs);
    assert qs[k] == ps[k];
    InOwnBucket(Group(ps, subs).buckets, qs, subs, k);
  }

  /** Bucket `i` has key `key` and holds `p`. */
  predicate HoldsAt(bs: seq<Bucket>, i: nat, key: string, p: Product)
    requires i < |bs|
  {
    bs[i].key == key && p in bs[i].items
  }

  lemma InOwnBucket(bs: seq<Bucket>, qs: seq<Product>, subs: seq<Subcategory>, k: nat)
    requires Groups(bs, qs, subs) && k < |qs| && Bucketed(qs[k])
    ensures exists i :: 0 <= i < |bs| && HoldsAt(bs, i, KeyOf(subs, qs[k]), qs[k])
    ensures forall i :: 0 <= i < |bs| && bs[i].key != KeyOf(subs, qs[k]) ==> qs[k] !in bs[i].items
  {
    var i :| 0 <= i < |bs| && bs[i].key == KeyOf(subs, qs[k]);
    assert InBucket(subs, bs[i].key)(qs[k]);
    assert HoldsAt(bs, i, KeyOf(subs, qs[k]), qs[k]);
  }

  /** When no grouped product has an inherited name the loop runs to the
      end and every product is grouped. */
  lemma GroupsAllWithoutInherited(ps: seq<Product>, subs: seq<Subcategory>)
    requires forall k :: 0 <= k < |ps| && Bucketed(ps[k]) ==> !Inherited(KeyOf(subs, ps[k]))
    ensures !Group(ps, subs).threw
    ensures Groups(Group(ps, subs).buckets, ps, subs)
  {
    FirstBreakUnique(ps, subs, |ps|);
    assert ps[..|ps|] == ps;
    assert Placed(ps, subs) == ps;
  }

  /** A grouped product in a subcategory named "constructor" stops the
      loop: neither it nor any product after it gets a bucket. */
  lemma InheritedNameStopsGrouping(p: Product, q: Product, subs: seq<Subcategory>)
    requires Bucketed(p) && KeyOf(subs, p) == "constructor"
    ensures Group([p, q], subs).threw
    ensures Group([p, q], subs).buckets == []
  {
    assert Breaks(subs, p);
    FirstBreakUnique([p, q], subs, 0);
    assert Placed([p, q], subs) == [];
    GroupSizes([p, q], subs);
    SumSizesAtLeastCount(Group([p, q], subs).buckets);
  }

  /** With no empty bucket there are at least as many items as buckets. */
  lemma {:induction false} SumSizesAtLeastCount(bs: seq<Bucket>)
    requires forall i :: 0 <= i < |bs| ==> bs[i].items != []
    ensures |bs| <= SumSizes(bs)
    decreases |bs|
  {
    if bs != [] {
      SumSizesAtLeastCount(bs[1..]);
    }
  }

  /** No bucket is keyed by an inherited name, so `Object.keys` lists every
      bucket. */
  lemma NoInheritedKey(ps: seq<Product>, subs: seq<Subcategory>)
    ensures var bs := Group(ps, subs).buckets;
      forall i :: 0 <= i < |bs| ==> !Inherited(bs[i].key)
  {
    var bs := Group(ps, subs).buckets;
    var qs := Placed(ps, subs);
    forall i | 0 <= i < |bs|
      ensures !Inherited(bs[i].key)
    {
      BucketKeyHasMember(bs, qs, subs, i);
      var k :| 0 <= k < |qs| && Bucketed(qs[k]) && KeyOf(subs, qs[k]) == bs[i].key;
      assert !Breaks(subs, qs[k]);
    }
  }

  /** `getSubcategoryKeys`: `Object.keys(productsBySubcategory)`. */
  function GetSubcategoryKeys(bs: seq<Bucket>): (r: seq<string>)
    ensures |r| == |bs|
    ensures forall i :: 0 <= i < |bs| ==> r[i] == bs[i].key
  {
    seq(|bs|, i requires 0 <= i < |bs| => bs[i].key)
  }

  /** After `loadData`, a name is a key exactly when some product placed
      before the loop stopped carries it. */
  lemma KeysAreNamesOfGrouped(ps: seq<Product>, subs: seq<Subcategory>, key: string)
    ensures key in GetSubcategoryKeys(Group(ps, subs).buckets)
            <==> exists k :: 0 <= k < |Placed(ps, subs)| && Bucketed(ps[k]) && KeyOf(subs, ps[k]) == key
  {
    var qs := Placed(ps, subs);
    KeysAreNames(Group(ps, subs).buckets, qs, subs, key);
    assert forall k :: 0 <= k < |qs| ==> qs[k] == ps[k];
  }

  lemma KeysAreNames(bs: seq<Bucket>, qs: seq<Product>, subs: seq<Subcategory>, key: string)
    requires Groups(bs, qs, subs)
    ensures key in GetSubcategoryKeys(bs)
            <==> exists k :: 0 <= k < |qs| && Bucketed(qs[k]) && KeyOf(subs, qs[k]) == key
  {
    var keys := GetSubcategoryKeys(bs);
    if key in keys {
      var i :| 0 <= i < |keys| && keys[i] == key;
      BucketKeyHasMember(bs, qs, subs, i);
    }
    if exists k :: 0 <= k < |qs| && Bucketed(qs[k]) && KeyOf(subs, qs[k]) == key {
      var k :| 0 <= k < |qs| && Bucketed(qs[k]) && KeyOf(subs, qs[k]) == key;
      var i :| 0 <= i < |bs| && bs[i].key == KeyOf(subs, qs[k]);
      assert keys[i] == key;
    }
  }

  /** Every bucket's key is the name of some grouped product. */
  lemma BucketKeyHasMember(bs: seq<Bucket>, ps: seq<Product>, subs: seq<Subcategory>, i: nat)
    requires Groups(bs, ps, subs) && i < |bs|
    ensures exists k :: 0 <= k < |ps| && Bucketed(ps[k]) && KeyOf(subs, ps[k]) == bs[i].key
  {
    var key := bs[i].key;
    var members := Members(ps, subs, key);
    assert members == bs[i].items && |members| > 0;
    assert InBucket(subs, key)(members[0]);
    var k :| 0 <= k < |ps| && ps[k] == members[0];
  }

  /** The page state `loadData` leaves: the subcategory list, the buckets
      and the loading flag.  Both fetches happen before anything is
      assigned, so a failed fetch leaves the lists as they were. */
  datatype Page = Page(subcategories: seq<Subcategory>, buckets: seq<Bucket>, loading: bool)

  /** `loadData`.  The subcategories are assigned before the grouping
      loop runs, so a step that throws leaves them assigned and the
      buckets built so far in place; the `catch` swallows the error. */
  function LoadData(page: Page, products: Option<seq<Product>>, subs: Option<seq<Subcategory>>): (r: Page)
    ensures !r.loading
    ensures products.Some? && subs.Some? ==>
      r.subcategories == subs.value
      && Groups(r.buckets, Placed(products.value, subs.value), subs.value)
    ensures products.None? || subs.None? ==> r.subcategories == page.subcategories && r.buckets == page.buckets
  {
    match (products, subs)
    case (Some(ps), Some(ss)) => Page(ss, Group(ps, ss).buckets, false)
    case _ => page.(loading := false)
  }
}
