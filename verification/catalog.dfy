/** The records the storefront and the admin panel pass around: categories,
    subcategories and products, and the identifiers that tie them together. */
module Catalog {
  import opened Common
  import opened Js

  /** A row identifier: the number the backend assigned, or the
      `temp-<milliseconds>` text the category editor invents for an entry it
      shows before the backend has answered.  The two kinds never compare
      equal under `===`. */
  datatype Id = Server(n: int) | Temp(stamp: nat)

  /** The identifier as the JavaScript value it is at run time. */
  function IdValue(id: Id): Value {
    match id
    case Server(n) => Num(n)
    case Temp(k) => Str("temp-" + NatToString(k))
  }

  /** `===` on identifiers is equality of the modelled identifiers. */
  lemma IdValueInjective(a: Id, b: Id)
    requires IdValue(a) == IdValue(b)
    ensures a == b
  {
    if a.Temp? && b.Temp? {
      var x := NatToString(a.stamp);
      var y := NatToString(b.stamp);
      assert x == ("temp-" + x)[5..];
      assert y == ("temp-" + y)[5..];
      DecimalOfNatToString(a.stamp);
      DecimalOfNatToString(b.stamp);
    }
  }

  /** A `temp-…` identifier never reads as a number. */
  lemma TempIsNotANumber(k: nat)
    ensures StringToNumber("temp-" + NatToString(k)) == None
  {
    var ds := NatToString(k);
    var t := "temp-" + ds;
    assert t[0] == 't';
    assert t[|t| - 1] == ds[|ds| - 1];
    NotANumber(t);
  }

  /** Against a number's decimal text, loose equality of an identifier
      agrees with loose equality against the number itself. */
  lemma LooseEqIdText(id: Id, n: int)
    ensures LooseEq(IdValue(id), Str(IntToString(n))) <==> LooseEq(IdValue(id), Num(n))
  {
    match id
    case Server(m) => LooseEqServerText(m, n);
    case Temp(k) => LooseEqTempText(k, n);
  }

  lemma LooseEqServerText(m: int, n: int)
    ensures LooseEq(Num(m), Str(IntToString(n))) <==> m == n
  {
    NumberOfIntToString(n);
    LooseEqTextNumber(IntToString(n), m);
  }

  lemma LooseEqTempText(k: nat, n: int)
    ensures !LooseEq(Str("temp-" + NatToString(k)), Str(IntToString(n)))
    ensures !LooseEq(Str("temp-" + NatToString(k)), Num(n))
  {
    var t := "temp-" + NatToString(k);
    TempIsNotText(k, n);
    LooseEqTexts(t, IntToString(n));
    TempIsNotANumber(k);
    LooseEqTextNumber(t, n);
  }

  lemma TempIsNotText(k: nat, n: int)
    ensures "temp-" + NatToString(k) != IntToString(n)
  {
    IntToStringStart(n);
    var t := "temp-" + NatToString(k);
    assert t[0] == 't';
  }

  datatype Subcategory = Subcategory(id: Id, name: string, categoryId: Id)

  /** A category row; `subcategories` is attached on the client after both
      lists are fetched. */
  datatype Category = Category(id: Id, name: string, subcategories: seq<Subcategory>)

  /** A product row as the storefront pages read it.  `categoryId` and
      `subcategoryId` are nullable columns, and `color` and `imageUrl` are
      optional text, so they keep their JavaScript values. */
  datatype Product = Product(
    id: Id,
    name: string,
    price: int,
    color: Value,
    sizes: seq<string>,
    imageUrl: Value,
    categoryId: Value,
    subcategoryId: Value)

  /** The name shown for a product's subcategory: the name of the first
      subcategory whose id is `===` to `id`, or `fallback` when `id` is falsy
      or matches none. */
  function SubcategoryName(subs: seq<Subcategory>, id: Value, fallback: string): (r: string)
    ensures !Truthy(id) ==> r == fallback
    ensures Truthy(id) && (forall i :: 0 <= i < |subs| ==> IdValue(subs[i].id) != id) ==> r == fallback
    ensures forall i :: 0 <= i < |subs| && Truthy(id) && IdValue(subs[i].id) == id
                        && (forall j :: 0 <= j < i ==> IdValue(subs[j].id) != id)
                        ==> r == subs[i].name
  {
    if !Truthy(id) then fallback
    else match FirstIndex(subs, (s: Subcategory) => IdValue(s.id) == id)
      case None => fallback
      case Some(i) => subs[i].name
  }
}
