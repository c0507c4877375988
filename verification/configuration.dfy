/** The visitor's current choices (`selectedModel`, `selectedColor`,
    `selectedBattery`, `selectedAddons`, `step`) and the price derived from
    them (`calculateTotal`). The total is never stored: it is recomputed from
    the selection each time it is shown. */
module Configuration {
  import opened Wrappers
  import opened Catalog
  import opened AddonList

  /** Model and battery are nullable in the source's checks (`?.`, `!== null`),
      so they are optional here; the wizard proves they are always present. */
  datatype Selection = Selection(
    step: int,
    model: Option<AtvModel>,
    color: VehicleColor,
    battery: Option<BatteryOption>,
    addons: seq<AddonId>)

  /** The state the page starts in: step 1, the first entry of every table, no extras. */
  const initialSelection: Selection :=
    Selection(1, Some(atvModels[0]), vehicleColors[0], Some(batteryOptions[0]), [])

  /** `selectedModel?.basePrice || 0`. */
  function BasePrice(model: Option<AtvModel>): int {
    match model
    case Some(m) => m.basePrice
    case None => 0
  }

  /** `selectedBattery?.price || 0`. */
  function BatteryPrice(battery: Option<BatteryOption>): int {
    match battery
    case Some(b) => b.price
    case None => 0
  }

  /** The add-on part of the total: the ids are visited in list order, each adding
      the price of its catalogue entry, or nothing when the id is unknown. */
  function AddonsPrice(catalog: seq<Addon>, ids: seq<AddonId>): int
  {
    if |ids| == 0 then 0
    else AddonsPrice(catalog, ids[..|ids| - 1]) + AddonPrice(catalog, ids[|ids| - 1])
  }

  /** Reference definition of the add-on part, independent of list order: every
      catalogue entry contributes its price once per occurrence of its id. */
  function CatalogSum(catalog: seq<Addon>, chosen: multiset<AddonId>): int
  {
    if |catalog| == 0 then 0
    else catalog[0].price * chosen[catalog[0].id] + CatalogSum(catalog[1..], chosen)
  }

  /** The total shown to the visitor. */
  function Total(sel: Selection): (r: int)
    ensures r == BasePrice(sel.model) + BatteryPrice(sel.battery) + CatalogSum(addons, multiset(sel.addons))
  {
    CataloguesWellFormed();
    AddonsPriceIsCatalogSum(addons, sel.addons);
    BasePrice(sel.model) + BatteryPrice(sel.battery) + AddonsPrice(addons, sel.addons)
  }

  /** Adding one more occurrence of `x` raises the reference sum by the price
      `x` is looked up at (0 for an unknown id). */
  lemma {:induction false} CatalogSumAddOne(catalog: seq<Addon>, chosen: multiset<AddonId>, x: AddonId)
    requires DistinctIds(catalog)
    ensures CatalogSum(catalog, chosen + multiset{x}) == CatalogSum(catalog, chosen) + AddonPrice(catalog, x)
  {
    if |catalog| > 0 {
      var tail := catalog[1..];
      assert DistinctIds(tail) by {
        forall i, j | 0 <= i < j < |tail| ensures tail[i].id != tail[j].id {
          assert tail[i] == catalog[i + 1] && tail[j] == catalog[j + 1];
        }
      }
      CatalogSumAddOne(tail, chosen, x);
      if catalog[0].id == x {
        assert FindAddon(catalog, x) == Some(catalog[0]);
        assert FindAddon(tail, x).None? by {
          forall i | 0 <= i < |tail| ensures tail[i].id != x {
            assert tail[i] == catalog[i + 1];
          }
        }
      } else {
        assert FindAddon(catalog, x) == FindAddon(tail, x);
      }
    }
  }

  /** The order-dependent fold over the id list equals the order-independent
      catalogue sum over the multiset of ids. */
  lemma {:induction false} AddonsPriceIsCatalogSum(catalog: seq<Addon>, ids: seq<AddonId>)
    requires DistinctIds(catalog)
    ensures AddonsPrice(catalog, ids) == CatalogSum(catalog, multiset(ids))
  {
    if |ids| == 0 {
      CatalogSumEmpty(catalog);
    } else {
      var front := ids[..|ids| - 1];
      var last := ids[|ids| - 1];
      assert ids == front + [last];
      AddonsPriceIsCatalogSum(catalog, front);
      CatalogSumAddOne(catalog, multiset(front), last);
    }
  }

  /** With nothing chosen the reference sum is 0. */
  lemma {:induction false} CatalogSumEmpty(catalog: seq<Addon>)
    ensures CatalogSum(catalog, multiset{}) == 0
  {
    if |catalog| > 0 {
      CatalogSumEmpty(catalog[1..]);
    }
  }

  /** With non-negative prices the reference sum is never negative. */
  lemma {:induction false} CatalogSumNonNegative(catalog: seq<Addon>, chosen: multiset<AddonId>)
    requires NonNegativePrices(catalog)
    ensures CatalogSum(catalog, chosen) >= 0
  {
    if |catalog| > 0 {
      assert NonNegativePrices(catalog[1..]) by {
        forall i | 0 <= i < |catalog[1..]| ensures catalog[1..][i].price >= 0 {
          assert catalog[1..][i] == catalog[i + 1];
        }
      }
      CatalogSumNonNegative(catalog[1..], chosen);
      assert catalog[0].price >= 0;
    }
  }

  /** Reordering the selected ids never changes the total. */
  lemma AddonsPricePermutation(ids: seq<AddonId>, ids': seq<AddonId>)
    requires multiset(ids) == multiset(ids')
    ensures AddonsPrice(addons, ids) == AddonsPrice(addons, ids')
  {
    CataloguesWellFormed();
    AddonsPriceIsCatalogSum(addons, ids);
    AddonsPriceIsCatalogSum(addons, ids');
  }

  /** `calculateTotal`: the model's base price, plus the battery's price, plus
      the catalogue price of every selected id found in the add-on table. */
  method CalculateTotal(sel: Selection) returns (total: int)
    ensures total == BasePrice(sel.model) + BatteryPrice(sel.battery) + CatalogSum(addons, multiset(sel.addons))
    ensures sel.model.Some? && BatteryPrice(sel.battery) >= 0 ==> total >= sel.model.value.basePrice
  {
    total := BasePrice(sel.model);
    total := total + BatteryPrice(sel.battery);
    var i := 0;
    while i < |sel.addons|
      invariant 0 <= i <= |sel.addons|
      invariant total == BasePrice(sel.model) + BatteryPrice(sel.battery) + AddonsPrice(addons, sel.addons[..i])
    {
      var id := sel.addons[i];
      match FindAddon(addons, id) {
        case Some(a) => total := total + a.price;
        case None =>
      }
      assert sel.addons[..i + 1][..i] == sel.addons[..i];
      i := i + 1;
    }
    assert sel.addons[..i] == sel.addons;
    CataloguesWellFormed();
    AddonsPriceIsCatalogSum(addons, sel.addons);
    CatalogSumNonNegative(addons, multiset(sel.addons));
  }

  /** The pure total agrees with the catalogue reading and is never below the
      model's base price when the battery surcharge is not negative. */
  lemma TotalLowerBound(sel: Selection)
    requires BatteryPrice(sel.battery) >= 0
    ensures Total(sel) == BasePrice(sel.model) + BatteryPrice(sel.battery) + CatalogSum(addons, multiset(sel.addons))
    ensures Total(sel) >= BasePrice(sel.model)
  {
    CataloguesWellFormed();
    AddonsPriceIsCatalogSum(addons, sel.addons);
    CatalogSumNonNegative(addons, multiset(sel.addons));
  }

  /** Toggling an add-on that is not selected raises the total by its catalogue
      price, and toggling it back gives the old total again. */
  lemma ToggleAbsentPrice(sel: Selection, id: AddonId)
    requires id !in sel.addons
    ensures Total(sel.(addons := Toggle(sel.addons, id))) == Total(sel) + AddonPrice(addons, id)
    ensures Total(sel.(addons := Toggle(Toggle(sel.addons, id), id))) == Total(sel)
  {
    ToggleTwiceAbsent(sel.addons, id);
  }

  /** Toggling a selected add-on (in a duplicate-free list) twice gives the old
      total, although the id moves to the end of the list. */
  lemma ToggleTwicePresentPrice(sel: Selection, id: AddonId)
    requires NoDup(sel.addons) && id in sel.addons
    ensures Total(sel.(addons := Toggle(Toggle(sel.addons, id), id))) == Total(sel)
  {
    ToggleTwicePresent(sel.addons, id);
    AddonsPricePermutation(Toggle(Toggle(sel.addons, id), id), sel.addons);
  }

  /** The worked example: Sport 500 with the standard battery costs 8500;
      the extended battery makes it 11000; the fast charger 11800; toggling
      the charger off again returns to 11000. */
  lemma ExampleTotals()
    ensures Total(initialSelection) == 8500
    ensures Total(initialSelection.(battery := Some(batteryOptions[1]))) == 11000
    ensures Total(initialSelection.(battery := Some(batteryOptions[1]), addons := Toggle([], "fast-charger"))) == 11800
    ensures Total(initialSelection.(battery := Some(batteryOptions[1]),
                                    addons := Toggle(Toggle([], "fast-charger"), "fast-charger"))) == 11000
  {
    var extended := initialSelection.(battery := Some(batteryOptions[1]));
    assert AddonsPrice(addons, []) == 0;
    assert BasePrice(initialSelection.model) == 8500;
    assert BatteryPrice(extended.battery) == 2500;
    var withCharger := Toggle([], "fast-charger");
    assert withCharger == ["fast-charger"];
    ChargerPrice(withCharger);
    ToggleTwiceAbsent([], "fast-charger");
  }

  /** The fast charger alone costs 800. */
  lemma ChargerPrice(ids: seq<AddonId>)
    requires ids == ["fast-charger"]
    ensures AddonsPrice(addons, ids) == 800
  {
    assert ids[..0] == [];
    assert addons[0].id == ids[0];
    assert FindAddon(addons, ids[0]) == Some(addons[0]);
  }
}
