/** The credit pack catalog: three fixed packs and a lookup by id. */
module Billing {
  import opened Common

  /** The pack identifiers; each is a string-valued enum member. */
  datatype PackId = Small | Medium | Large
  {
    /** The string the enum member stands for. */
    function Value(): string
    {
      match this
      case Small => "SMALL"
      case Medium => "MEDIUM"
      case Large => "LARGE"
    }
  }

  /** One catalog entry. The payment provider's price id, read from the
      environment, is not part of this model. */
  datatype CreditsPack = CreditsPack(
    id: PackId,
    name: string,
    labelText: string,
    credits: int,
    price: int)

  const SmallPack := CreditsPack(Small, "Small Pack", "1,000 Credits", 1000, 100000)
  const MediumPack := CreditsPack(Medium, "Medium Pack", "5,000 Credits", 5000, 400000)
  const LargePack := CreditsPack(Large, "Large Pack", "10,000 Credits", 10000, 600000)

  /** The catalog, in the order the source lists it. */
  const Catalog: seq<CreditsPack> := [SmallPack, MediumPack, LargePack]

  /** `packs.find(p => p.id === id)`: the first pack whose id is `id`. */
  function Find(packs: seq<CreditsPack>, id: string): (r: Option<CreditsPack>)
    ensures r.None? <==> forall i :: 0 <= i < |packs| ==> packs[i].id.Value() != id
    ensures r.Some? ==>
      exists i :: 0 <= i < |packs| && packs[i] == r.value && packs[i].id.Value() == id &&
        forall j :: 0 <= j < i ==> packs[j].id.Value() != id
  {
    if packs == [] then None
    else if packs[0].id.Value() == id then Some(packs[0])
    else
      var r := Find(packs[1..], id);
      assert r.Some? ==>
        (exists i :: 1 <= i < |packs| && packs[i] == r.value && packs[i].id.Value() == id &&
          forall j :: 0 <= j < i ==> packs[j].id.Value() != id)
      by {
        if r.Some? {
          var k :| 0 <= k < |packs[1..]| && packs[1..][k] == r.value && packs[1..][k].id.Value() == id &&
            forall j :: 0 <= j < k ==> packs[1..][j].id.Value() != id;
          assert packs[k + 1] == r.value;
          assert forall j :: 0 <= j < k + 1 ==> packs[j].id.Value() != id by {
            forall j | 0 <= j < k + 1 ensures packs[j].id.Value() != id {
              if j > 0 { assert packs[j] == packs[1..][j - 1]; }
            }
          }
        }
      }
      r
  }

  /** `getCreditsPack(id)`, applied to whatever string the caller passes. */
  function GetCreditsPack(id: string): (r: Option<CreditsPack>)
    ensures r.Some? ==> r.value in Catalog && r.value.id.Value() == id
    ensures r.None? <==> id != "SMALL" && id != "MEDIUM" && id != "LARGE"
  {
    assert Catalog[0].id.Value() == "SMALL" && Catalog[1].id.Value() == "MEDIUM" && Catalog[2].id.Value() == "LARGE";
    Find(Catalog, id)
  }

  /** The enum's string values are distinct, so a string names at most one
      pack id. */
  lemma ValueInjective(a: PackId, b: PackId)
    requires a.Value() == b.Value()
    ensures a == b
  {
  }

  /** Every pack id has exactly one catalog entry. */
  lemma EachPackIdListedOnce(id: PackId)
    ensures exists i :: 0 <= i < |Catalog| && Catalog[i].id == id
    ensures forall i, j ::
      (0 <= i < |Catalog| && 0 <= j < |Catalog| && Catalog[i].id == id && Catalog[j].id == id) ==> i == j
  {
    match id
    case Small => assert Catalog[0].id == id;
    case Medium => assert Catalog[1].id == id;
    case Large => assert Catalog[2].id == id;
  }

  /** Looking up any pack id's own string finds the pack with that id. */
  lemma LookupByEnum(id: PackId)
    ensures GetCreditsPack(id.Value()).Some?
    ensures GetCreditsPack(id.Value()).value.id == id
  {
    var r := GetCreditsPack(id.Value());
    ValueInjective(r.value.id, id);
  }

  /** The catalog values: credits and price of each pack. */
  lemma CatalogValues()
    ensures GetCreditsPack("SMALL") == Some(SmallPack)
    ensures SmallPack.credits == 1000 && SmallPack.price == 100000
    ensures GetCreditsPack("MEDIUM") == Some(MediumPack)
    ensures MediumPack.credits == 5000 && MediumPack.price == 400000
    ensures GetCreditsPack("LARGE") == Some(LargePack)
    ensures LargePack.credits == 10000 && LargePack.price == 600000
  {
  }

  /** Every pack grants a positive number of credits for a positive price. */
  lemma PacksPositive(p: CreditsPack)
    requires p in Catalog
    ensures p.credits > 0 && p.price > 0
  {
  }
}
