/** The four static catalogues of the configurator page and the lookups the
    page performs on them. Every entry is immutable and lives for the whole
    session. */
module Catalog {
  import opened Wrappers

  /** The closed set of style tags of a vehicle model. */
  datatype Style = Sport | Utility | Adventure | Youth

  /** A vehicle model. `basePrice` is in whole euros. */
  datatype AtvModel = AtvModel(
    id: string, name: string, category: string, basePrice: int,
    power: string, topSpeed: string, style: Style)

  /** A paint colour. `hex` is the CSS colour string; `metalness` feeds the body paint. */
  datatype VehicleColor = VehicleColor(id: string, name: string, hex: string, metalness: real)

  /** A battery pack. `price` is the surcharge over the base price. */
  datatype BatteryOption = BatteryOption(
    id: string, name: string, capacity: string, range: string,
    price: int, chargeTime: string, size: real)

  /** An optional extra. The icon component of the source is presentation only. */
  datatype Addon = Addon(id: string, name: string, description: string, price: int)

  const vehicleColors: seq<VehicleColor> := [
    VehicleColor("blue", "Volt Blue", "#0088e6", 0.7),
    VehicleColor("orange", "Performance Orange", "#f08c00", 0.6),
    VehicleColor("green", "Electric Green", "#10b981", 0.6),
    VehicleColor("red", "Racing Red", "#dc2626", 0.7),
    VehicleColor("black", "Stealth Black", "#1a1a1a", 0.9),
    VehicleColor("white", "Arctic White", "#f0f0f0", 0.3)
  ]

  const atvModels: seq<AtvModel> := [
    AtvModel("sport-500", "Sport 500", "Sport", 8500, "45 kW", "120 km/h", Sport),
    AtvModel("utility-750", "Utility 750", "Utility", 12000, "55 kW", "90 km/h", Utility),
    AtvModel("adventure-600", "Adventure 600", "Adventure", 10500, "50 kW", "110 km/h", Adventure),
    AtvModel("youth-250", "Youth 250", "Youth", 4500, "15 kW", "45 km/h", Youth)
  ]

  const batteryOptions: seq<BatteryOption> := [
    BatteryOption("standard", "Standard Range", "10 kWh", "80 km", 0, "4 hours", 1.0),
    BatteryOption("extended", "Extended Range", "15 kWh", "120 km", 2500, "5 hours", 1.25),
    BatteryOption("performance", "Performance Max", "20 kWh", "160 km", 4500, "6 hours", 1.5)
  ]

  const addons: seq<Addon> := [
    Addon("fast-charger", "Fast Charger", "Reduce charge time by 50%", 800),
    Addon("battery-monitor", "Smart Battery Monitor", "Real-time battery analytics app", 350),
    Addon("extended-warranty", "Extended Warranty", "5-year coverage on all components", 1200),
    Addon("connectivity", "GPS & Connectivity Pack", "Track location & remote diagnostics", 550)
  ]

  /** No two entries of an add-on table share an id. */
  predicate DistinctIds(catalog: seq<Addon>) {
    forall i, j :: 0 <= i < j < |catalog| ==> catalog[i].id != catalog[j].id
  }

  /** Every add-on of a table has a non-negative price. */
  predicate NonNegativePrices(catalog: seq<Addon>) {
    forall i :: 0 <= i < |catalog| ==> catalog[i].price >= 0
  }

  /** The shipped tables are well formed: ids are unique and no price is negative. */
  lemma CataloguesWellFormed()
    ensures DistinctIds(addons) && NonNegativePrices(addons)
    ensures forall b :: b in batteryOptions ==> b.price >= 0
    ensures forall m :: m in atvModels ==> m.basePrice >= 0
  {
  }

  /** `catalog.find(a => a.id === id)`: the first entry carrying `id`, if any. */
  function FindAddon(catalog: seq<Addon>, id: string): (r: Option<Addon>)
    ensures r.None? <==> forall i :: 0 <= i < |catalog| ==> catalog[i].id != id
    ensures r.Some? ==> exists k :: 0 <= k < |catalog| && catalog[k] == r.value && r.value.id == id
                                   && forall j :: 0 <= j < k ==> catalog[j].id != id
  {
    if |catalog| == 0 then None
    else if catalog[0].id == id then Some(catalog[0])
    else
      var rest := FindAddon(catalog[1..], id);
      assert rest.Some? ==> exists k :: 0 <= k < |catalog[1..]| && catalog[1..][k] == rest.value && rest.value.id == id
                                   && forall j :: 0 <= j < k ==> catalog[1..][j].id != id;
      if rest.Some? then
        var k :| 0 <= k < |catalog[1..]| && catalog[1..][k] == rest.value && rest.value.id == id
                 && forall j :: 0 <= j < k ==> catalog[1..][j].id != id;
        assert catalog[k + 1] == rest.value;
        assert forall j :: 0 <= j < k + 1 ==> catalog[j].id != id by {
          forall j | 0 <= j < k + 1 ensures catalog[j].id != id {
            if j > 0 { assert catalog[j] == catalog[1..][j - 1]; }
          }
        }
        rest
      else
        assert forall i :: 0 <= i < |catalog| ==> catalog[i].id != id by {
          forall i | 0 <= i < |catalog| ensures catalog[i].id != id {
            if i > 0 { assert catalog[i] == catalog[1..][i - 1]; }
          }
        }
        None
  }

  /** The price an add-on id contributes to the total: the catalogue price when
      the id is in the table, and 0 otherwise. */
  function AddonPrice(catalog: seq<Addon>, id: string): int {
    match FindAddon(catalog, id)
    case Some(a) => a.price
    case None => 0
  }

  /** `catalog.find(c => c.hex === hex)`: the first colour with that hex value, if any. */
  function FindColor(catalog: seq<VehicleColor>, hex: string): (r: Option<VehicleColor>)
    ensures r.None? <==> forall i :: 0 <= i < |catalog| ==> catalog[i].hex != hex
    ensures r.Some? ==> exists k :: 0 <= k < |catalog| && catalog[k] == r.value && r.value.hex == hex
                                   && forall j :: 0 <= j < k ==> catalog[j].hex != hex
  {
    if |catalog| == 0 then None
    else if catalog[0].hex == hex then Some(catalog[0])
    else
      var rest := FindColor(catalog[1..], hex);
      if rest.Some? then
        var k :| 0 <= k < |catalog[1..]| && catalog[1..][k] == rest.value && rest.value.hex == hex
                 && forall j :: 0 <= j < k ==> catalog[1..][j].hex != hex;
        assert catalog[k + 1] == rest.value;
        assert forall j :: 0 <= j < k + 1 ==> catalog[j].hex != hex by {
          forall j | 0 <= j < k + 1 ensures catalog[j].hex != hex {
            if j > 0 { assert catalog[j] == catalog[1..][j - 1]; }
          }
        }
        rest
      else
        assert forall i :: 0 <= i < |catalog| ==> catalog[i].hex != hex by {
          forall i | 0 <= i < |catalog| ensures catalog[i].hex != hex {
            if i > 0 { assert catalog[i] == catalog[1..][i - 1]; }
          }
        }
        None
  }

  /** The colour record the viewer uses for a hex string: the catalogue entry
      with that hex, falling back to the first catalogue colour. */
  function ColorByHex(hex: string): (r: VehicleColor)
    ensures r in vehicleColors
    ensures (exists i :: 0 <= i < |vehicleColors| && vehicleColors[i].hex == hex) ==> r.hex == hex
    ensures (forall i :: 0 <= i < |vehicleColors| ==> vehicleColors[i].hex != hex) ==> r == vehicleColors[0]
  {
    FindColor(vehicleColors, hex).GetOr(vehicleColors[0])
  }
}
