/**
  * The home page's widgets: the business-type switcher
  * (client/src/features/home/componenets/BusinessTypeSwitcher.tsx), the rotating
  * promotion banner (PromoBanner.tsx) and the featured products strip
  * (FeaturedProducts.tsx), which pick their content from the path's mode.
  */
module HomeWidgets {
  import opened Wrappers
  import opened Text

  /** `BusinessType`. */
  datatype BusinessType = Grocery | Electronics | SmokeGear | Accessories {
    /** The label the switcher shows. */
    function Name(): string
    {
      match this
      case Grocery => "Grocery"
      case Electronics => "Electronics"
      case SmokeGear => "Smoke Gear"
      case Accessories => "Accessories"
    }
  }

  /** `businessTypes`, in display order. */
  const BusinessTypes: seq<BusinessType> := [Grocery, Electronics, SmokeGear, Accessories]

  /** `BUSINESS_ROUTES`. */
  function Route(t: BusinessType): (path: string)
    ensures |path| > 1 && path[0] == '/'
  {
    match t
    case Grocery => "/home"
    case Electronics => "/electronics"
    case SmokeGear => "/smoke"
    case Accessories => "/accessories"
  }

  /** Each type has its own route, and Grocery's is the home page. */
  lemma RoutesInjective(a: BusinessType, b: BusinessType)
    ensures Route(a) == Route(b) <==> a == b
    ensures Route(Grocery) == "/home"
  {
    if a != b {
      assert Route(a)[1] != Route(b)[1];
    }
  }

  /** The position of a type in `BusinessTypes`. */
  function IndexOf(t: BusinessType): (k: nat)
    ensures k < |BusinessTypes| && BusinessTypes[k] == t
  {
    match t
    case Grocery => 0
    case Electronics => 1
    case SmokeGear => 2
    case Accessories => 3
  }

  /** The buttons: every type but the active one, in display order. */
  function VisibleTypes(active: BusinessType): (r: seq<BusinessType>)
    ensures |r| == 3
    ensures active !in r && forall k :: 0 <= k < |BusinessTypes| && BusinessTypes[k] != active ==> BusinessTypes[k] in r
    ensures r == BusinessTypes[..IndexOf(active)] + BusinessTypes[IndexOf(active) + 1..]
  {
    match active
    case Grocery => [Electronics, SmokeGear, Accessories]
    case Electronics => [Grocery, SmokeGear, Accessories]
    case SmokeGear => [Grocery, Electronics, Accessories]
    case Accessories => [Grocery, Electronics, SmokeGear]
  }

  /** What pressing a type button does, in order. */
  datatype Effect = Selected(t: BusinessType) | NavigatedTo(path: string)

  /** `handleSelect`: tell the parent if it listens, then navigate if the switcher may. */
  function HandleSelect(t: BusinessType, hasOnSelect: bool, hasNavigateTo: bool): (effects: seq<Effect>)
    ensures Selected(t) in effects <==> hasOnSelect
    ensures NavigatedTo(Route(t)) in effects <==> hasNavigateTo
    ensures |effects| == (if hasOnSelect then 1 else 0) + (if hasNavigateTo then 1 else 0)
    ensures hasOnSelect && hasNavigateTo ==> effects == [Selected(t), NavigatedTo(Route(t))]
  {
    var route := Route(t);
    (if hasOnSelect then [Selected(t)] else []) + (if hasNavigateTo && route != "" then [NavigatedTo(route)] else [])
  }

  /** `PageMode`. */
  datatype PageMode = GroceryMode | SmokeMode | ElectronicsMode | AccessoriesMode

  /** `getModeFromPath`, written the same in the banner and the featured strip. */
  function ModeFromPath(pathname: string): (m: PageMode)
    ensures StartsWith(pathname, "/smoke") ==> m == SmokeMode
    ensures m == GroceryMode <==> !StartsWith(pathname, "/smoke") && !StartsWith(pathname, "/electronics") && !StartsWith(pathname, "/accessories")
    ensures !StartsWith(pathname, "/smoke") && StartsWith(pathname, "/electronics") ==> m == ElectronicsMode
    ensures !StartsWith(pathname, "/smoke") && !StartsWith(pathname, "/electronics") && StartsWith(pathname, "/accessories")
            ==> m == AccessoriesMode
  {
    if StartsWith(pathname, "/smoke") then SmokeMode
    else if StartsWith(pathname, "/electronics") then ElectronicsMode
    else if StartsWith(pathname, "/accessories") then AccessoriesMode
    else GroceryMode
  }

  /** The switcher's routes land on the pages of the matching mode. */
  lemma RoutesSelectTheirMode(t: BusinessType)
    ensures ModeFromPath(Route(t)) == match t
      case Grocery => GroceryMode
      case Electronics => ElectronicsMode
      case SmokeGear => SmokeMode
      case Accessories => AccessoriesMode
  {
    match t
    case Grocery =>
      assert "/home"[1] != "/smoke"[1] && "/home"[1] != "/electronics"[1] && "/home"[1] != "/accessories"[1];
    case Electronics =>
      assert "/electronics"[1] != "/smoke"[1];
      assert "/electronics"[..|"/electronics"|] == "/electronics";
    case SmokeGear =>
      assert "/smoke"[..|"/smoke"|] == "/smoke";
    case Accessories =>
      assert "/accessories"[1] != "/smoke"[1] && "/accessories"[1] != "/electronics"[1];
      assert "/accessories"[..|"/accessories"|] == "/accessories";
  }

  /** `PROMOS`. */
  function Promos(m: PageMode): (messages: seq<string>)
    ensures |messages| == 4
  {
    match m
    case GroceryMode => ["Free delivery on orders over $50.", "Buy 2 Get 1 Free on select energy drinks.",
                         "Deals refreshed daily — check back often.", "Bulk savings available on top brands."]
    case SmokeMode => ["New smoke gear just arrived ", "Limited-time deals on wraps & hookahs.",
                       "Stock moves fast — order early.", "Premium accessories now available."]
    case ElectronicsMode => ["New arrivals in accessories and essentials.", "Bundle deals available on top items.",
                             "Limited-time discounts while inventory lasts.", "Fast restocks — check weekly."]
    case AccessoriesMode => ["New essentials and add-ons just landed.", "Save more when you bundle items.",
                             "Popular items restocked — limited quantities.", "Seasonal offers available now."]
  }

  /** One interval tick: the next message, wrapping around; no rotation for one message or none. */
  function Tick(index: nat, count: nat): (r: nat)
    ensures count <= 1 ==> r == index
    ensures count > 1 && index < count ==> r < count
  {
    if count <= 1 then index else (index + 1) % count
  }

  /** `n` ticks from `index`. */
  function Ticks(index: nat, count: nat, n: nat): nat
    decreases n
  {
    if n == 0 then index else Tick(Ticks(index, count, n - 1), count)
  }

  /** With several messages, up to a full cycle of ticks advances the index by `n`, wrapping once. */
  lemma {:induction false} TicksAdvance(index: nat, count: nat, n: nat)
    requires count > 1 && index < count && n <= count
    ensures Ticks(index, count, n) == if index + n < count then index + n else index + n - count
    decreases n
  {
    if n > 0 {
      TicksAdvance(index, count, n - 1);
      var v := Ticks(index, count, n - 1);
      assert v < count;
      assert Ticks(index, count, n) == Tick(v, count);
      if v + 1 < count {
        ModSmall(v + 1, count);
      } else {
        ModSelf(count);
      }
    }
  }

  /** A remainder below the divisor is the number itself. */
  lemma ModSmall(x: int, c: int)
    requires 0 <= x < c
    ensures x % c == x
  {
  }

  /** A number divides itself. */
  lemma ModSelf(c: int)
    requires 0 < c
    ensures c % c == 0
  {
  }

  /** A full cycle of ticks shows every message once and returns to the first. */
  lemma FullCycleReturns(m: PageMode, index: nat)
    requires index < |Promos(m)|
    ensures Ticks(index, |Promos(m)|, |Promos(m)|) == index
  {
    TicksAdvance(index, |Promos(m)|, |Promos(m)|);
  }

  /** The banner's text: nothing without messages, otherwise the current one. */
  function BannerText(messages: seq<string>, index: nat): (r: Option<string>)
    ensures r.None? <==> |messages| == 0 || index >= |messages|
    ensures r.Some? ==> r.value in messages
    ensures r.Some? ==> index < |messages| && r.value == messages[index]
  {
    if index < |messages| then Some(messages[index]) else None
  }

  /** The strip's colours. */
  datatype Theme = Theme(sectionBg: string, headerColor: string, titleColor: string, priceColor: string, tagColor: string)

  const GroceryTheme := Theme("#f8fafc", "#0f172a", "#1f2937", "#ef4444", "#ef4444")
  const SmokeTheme := Theme("transparent", "#fff", "#e5e7eb", "#fca5a5", "#ef4444")

  /** `getThemeConfig`: only the smoke mode has its own theme. */
  function ThemeOf(m: PageMode): (t: Theme)
    ensures t == SmokeTheme <==> m == SmokeMode
    ensures t == GroceryTheme <==> m != SmokeMode
  {
    if m == SmokeMode then SmokeTheme else GroceryTheme
  }

  /** A featured product of the mock data. */
  datatype Featured = Featured(id: string, title: string, price: string, image: string, tag: Option<string>)

  /** `FEATURED_DATA`. */
  function FeaturedData(m: PageMode): (items: seq<Featured>)
    ensures |items| == 4
  {
    match m
    case GroceryMode => GroceryFeatured
    case SmokeMode => SmokeFeatured
    case ElectronicsMode => ElectronicsFeatured
    case AccessoriesMode => AccessoriesFeatured
  }

  /** The mock products of each mode. */
  const GroceryFeatured: seq<Featured> := [
      Featured("g1", "RED BULL ENERGY 8.4 FL. OZ., 24 PK.", "$31.99", "https://neowaslstorage.blob.core.windows.net/images/beverages/RedBull8point4oz.jpg", Some("Deal")),
      Featured("g2", "ORGANIC AVOCADOS (3PK)", "$4.99", "#e0f2f1", Some("Fresh")),
      Featured("g3", "CLASSIC POTATO CHIPS", "$2.25", "#fff3e0", None),
      Featured("g4", "SPRING WATER CASE", "$5.99", "#f3e5f5", None)]
  const SmokeFeatured: seq<Featured> := [
      Featured("s1", "NEO GLOW HOOKAH SET", "$120.00", "#27272a", Some("Exclusive")),
      Featured("s2", "EXOTIC ROLLING TRAY", "$24.99", "#18181b", Some("New Drop")),
      Featured("s3", "PREMIUM GLASS PIPE", "$45.00", "#09090b", None),
      Featured("s4", "ORGANIC HEMP WRAPS", "$2.50", "#1c1917", Some("Best Seller"))]
  const ElectronicsFeatured: seq<Featured> := [
      Featured("e1", "USB-C FAST CHARGER", "$19.99", "#f5f5f5", Some("Fast")),
      Featured("e2", "WIRELESS EARBUDS", "$49.99", "#eeeeee", None),
      Featured("e3", "SMART LED STRIP", "$24.99", "#e0e0e0", None),
      Featured("e4", "PHONE STAND PRO", "$12.99", "#fafafa", None)]
  const AccessoriesFeatured: seq<Featured> := [
      Featured("a1", "WINTER BEANIE", "$14.99", "#fff7ed", None),
      Featured("a2", "LEATHER WALLET", "$29.99", "#ffedd5", None),
      Featured("a3", "KEY ORGANIZER", "$9.99", "#fed7aa", None),
      Featured("a4", "SUNGLASSES", "$18.50", "#fdba74", None)]

  /** The mode's letter that every featured id of the mode starts with. */
  function ModeLetter(m: PageMode): char
  {
    match m
    case GroceryMode => 'g'
    case SmokeMode => 's'
    case ElectronicsMode => 'e'
    case AccessoriesMode => 'a'
  }

  /** Within a mode the ids are distinct (React keys), and ids never repeat across modes. */
  lemma FeaturedIdsUnique(m: PageMode, n: PageMode, i: nat, j: nat)
    requires i < 4 && j < 4
    ensures FeaturedData(m)[i].id == FeaturedData(n)[j].id <==> m == n && i == j
  {
    var a := FeaturedData(m)[i].id;
    var b := FeaturedData(n)[j].id;
    FeaturedIdShape(m, i);
    FeaturedIdShape(n, j);
    if a == b {
      assert a[0] == b[0] && a[1] == b[1];
    }
  }

  /** A featured id is the mode's letter followed by the product's place, counted from 1. */
  lemma FeaturedIdShape(m: PageMode, i: nat)
    requires i < 4
    ensures var id := FeaturedData(m)[i].id; |id| == 2 && id[0] == ModeLetter(m) && id[1] == '1' + i as char
  {
    match m
    case GroceryMode =>
    case SmokeMode =>
    case ElectronicsMode =>
    case AccessoriesMode =>
  }

  /** How a product's image renders. */
  datatype Picture = Swatch(colour: string) | Img(src: string)

  /** A `#` colour renders as a swatch, anything else as an image. */
  function PictureOf(image: string): (p: Picture)
    ensures p.Swatch? <==> |image| > 0 && image[0] == '#'
    ensures p.Swatch? ==> p.colour == image
    ensures p.Img? ==> p.src == image
  {
    if StartsWith(image, "#") then Swatch(image) else Img(image)
  }
}
