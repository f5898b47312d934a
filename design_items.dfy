/**
 * The design items of the portfolio page and the configured image collections:
 * what the gallery reads from the page, the registry of collections it starts
 * with, and the rules that give each `.design-item` the key of the collection
 * it opens.
 */
module DesignItems {
  import opened Wrappers
  import opened JsText

  /** One image of a collection: its source and the caption shown under it. */
  datatype ImageEntry = ImageEntry(src: string, title: string)

  /**
   * An `<img>` element: `srcAttr` is its `src` attribute (what a CSS
   * `[src*=…]` selector tests), `src` the resolved URL its `src` property
   * returns, `alt` its `alt` property ("" when absent).
   */
  datatype Img = Img(srcAttr: string, src: string, alt: string)

  /** An enclosing `.design-section`, with the text of its first `h2` if it has one. */
  datatype Section = Section(firstH2Text: Option<string>)

  /**
   * The features of a page element the script looks at: its `data-collection`
   * attribute, whether it has class `featured`, its `img` descendants in
   * document order, the text of its first `h3`, the text of an ancestor
   * matching `.design-section h2` (normally none), and its enclosing
   * `.design-section`.
   */
  datatype Element = Element(
    dataCollection: Option<string>,
    featured: bool,
    imgs: seq<Img>,
    h3Text: Option<string>,
    headingAncestorText: Option<string>,
    section: Option<Section>)

  type Registry = map<string, seq<ImageEntry>>

  const DefaultTitle: string := "Design Item"
  const AadtName: string := "Asian American Dance Troupe"
  const Cs124Name: string := "CS124"
  const FallbackPrefix: string := "fallback-"

  /** The collections configured in the page script, in display order. */
  function InitialRegistry(): (r: Registry)
    ensures r.Keys == {"aadt-featured", "aadt-social", "aadt-merch", "aadt-workshop",
                       "cs124-stickers", "cs124-tshirt", "web-ui"}
    ensures forall key :: key in r ==> |r[key]| >= 1
  {
    map[
      "aadt-featured" := [
        ImageEntry("images/poster2.png", "AADT Horizon Fall Poster - Design 1"),
        ImageEntry("images/ebposter25.png", "AADT Eastbound Spring Poster - Design 2")],
      "aadt-social" := [
        ImageEntry("images/social1.png", "Instagram Post"),
        ImageEntry("images/social2.png", "Instagram Post"),
        ImageEntry("images/social3.png", "Event Announcement")],
      "aadt-merch" := [
        ImageEntry("images/ebtshirtmockup.png", "T-shirt Design"),
        ImageEntry("images/aadtsticker.png", "Sticker Design"),
        ImageEntry("images/aadtsticker2.png", "Sticker Design"),
        ImageEntry("images/aadtsticker3.png", "Sticker Design")],
      "aadt-workshop" := [
        ImageEntry("images/workshop.png", "Workshop Post")],
      "cs124-stickers" := [
        ImageEntry("images/stickerdesign.png", "CS1240 Sticker"),
        ImageEntry("images/cs124.png", "CS1240 printed sticker")],
      "cs124-tshirt" := [
        ImageEntry("images/tshirtback.png", "CS124 T-shirt Back Design")],
      "web-ui" := [
        ImageEntry("images/wics-figma.png", "WICS Web Design")]
    ]
  }

  // ---------------------------------------------------------------------
  // the page lookups

  /**
   * `document.querySelector('[data-collection="key"]')`: the position of the
   * first element, in document order, whose `data-collection` is `key`.
   */
  function FirstWithCollection(doc: seq<Element>, key: string): (r: Option<nat>)
    ensures r.Some? ==> r.value < |doc| && doc[r.value].dataCollection == Some(key)
    ensures r.Some? ==> forall j :: 0 <= j < r.value ==> doc[j].dataCollection != Some(key)
    ensures r.None? ==> forall j :: 0 <= j < |doc| ==> doc[j].dataCollection != Some(key)
    decreases |doc|
  {
    if doc == [] then None
    else if doc[0].dataCollection == Some(key) then Some(0)
    else
      match FirstWithCollection(doc[1..], key)
      case None => None
      case Some(i) => Some(i + 1)
  }

  /** `img.alt || 'Design Item'`: the caption of a collection made from one page image. */
  function FallbackEntry(img: Img): (e: ImageEntry)
    ensures e.src == img.src
    ensures e.title != ""
    ensures img.alt != "" ==> e.title == img.alt
    ensures img.alt == "" ==> e.title == DefaultTitle
  {
    ImageEntry(img.src, if img.alt != "" then img.alt else DefaultTitle)
  }

  /**
   * The collection `openDesignModal(key)` shows: the registry's entry when it
   * is present and non-empty; otherwise one image, the first `img` of the
   * first element whose `data-collection` is `key`; otherwise nothing.
   */
  function ResolveCollection(registry: Registry, doc: seq<Element>, key: string): (r: Option<seq<ImageEntry>>)
    ensures r.Some? ==> |r.value| >= 1
    ensures key in registry && registry[key] != [] ==> r == Some(registry[key])
    ensures !(key in registry && registry[key] != []) ==>
      match FirstWithCollection(doc, key)
      case None => r.None?
      case Some(i) =>
        if doc[i].imgs == [] then r.None? else r == Some([FallbackEntry(doc[i].imgs[0])])
  {
    if key in registry && registry[key] != [] then Some(registry[key])
    else
      match FirstWithCollection(doc, key)
      case None => None
      case Some(i) => if doc[i].imgs == [] then None else Some([FallbackEntry(doc[i].imgs[0])])
  }

  // ---------------------------------------------------------------------
  // the key of a design item

  /** `h2?.textContent.includes(name)`: a heading that exists and names `name`. */
  predicate Names(text: Option<string>, name: string)
  {
    text.Some? && Contains(text.value, name)
  }

  /** `item.querySelector('img[src*="needle"]')` finds something. */
  predicate HasImgWith(item: Element, needle: string)
  {
    exists k :: 0 <= k < |item.imgs| && Contains(item.imgs[k].srcAttr, needle)
  }

  /** The key chosen inside an Asian American Dance Troupe section. */
  function AadtKey(item: Element): (key: string)
    ensures key in {"", "aadt-featured", "aadt-social", "aadt-merch", "aadt-workshop"}
    ensures key == "aadt-featured" <==> item.featured
    ensures key == "" <==> !item.featured && !HasImgWith(item, "social") && !HasImgWith(item, "shirt") &&
                           !HasImgWith(item, "merch") && !HasImgWith(item, "workshop")
  {
    if item.featured then "aadt-featured"
    else if HasImgWith(item, "social") then "aadt-social"
    else if HasImgWith(item, "shirt") || HasImgWith(item, "merch") then "aadt-merch"
    else if HasImgWith(item, "workshop") then "aadt-workshop"
    else ""
  }

  /** The key chosen inside a CS124 section. */
  function Cs124Key(item: Element): (key: string)
    ensures key in {"", "cs124-stickers", "cs124-tshirt"}
    ensures key == "cs124-stickers" <==> HasImgWith(item, "sticker")
    ensures key == "" <==> !HasImgWith(item, "sticker") && !HasImgWith(item, "shirt")
  {
    if HasImgWith(item, "sticker") then "cs124-stickers"
    else if HasImgWith(item, "shirt") then "cs124-tshirt"
    else ""
  }

  /**
   * The outcome of classifying one item: a key (possibly "", meaning none),
   * or the TypeError thrown when the script dereferences the missing
   * enclosing `.design-section`.
   */
  datatype Classification = Key(key: string) | SectionMissing

  /** The first-match rules of `initializeDesignItemClicks` for one item. */
  function ClassifyItem(item: Element): (c: Classification)
    ensures item.dataCollection.Some? ==> c == Key(item.dataCollection.value)
    ensures c == SectionMissing ==> item.dataCollection.None? && item.section.None?
    ensures c.Key? && item.dataCollection.None? ==> c.key == "" || c.key in HeuristicKeys
  {
    if item.dataCollection.Some? then Key(item.dataCollection.value)
    else if Names(item.headingAncestorText, AadtName) then Key(AadtKey(item))
    else if item.section.None? then SectionMissing
    else if Names(item.section.value.firstH2Text, AadtName) then Key(AadtKey(item))
    else if Names(item.headingAncestorText, Cs124Name) || Names(item.section.value.firstH2Text, Cs124Name)
    then Key(Cs124Key(item))
    else Key("")
  }

  /** An item without a declared key whose heading names the dance troupe. */
  predicate InAadt(item: Element)
  {
    item.dataCollection.None? &&
    (Names(item.headingAncestorText, AadtName) ||
     (item.section.Some? && Names(item.section.value.firstH2Text, AadtName)))
  }

  /** An item without a declared key, not in a troupe section, whose heading names CS124. */
  predicate InCs124(item: Element)
  {
    item.dataCollection.None? && !InAadt(item) && item.section.Some? &&
    (Names(item.headingAncestorText, Cs124Name) || Names(item.section.value.firstH2Text, Cs124Name))
  }

  /**
   * Each outcome, stated on its own: a declared key wins; in a troupe section
   * the order is featured, social, shirt or merch, workshop; in a CS124
   * section (and only when the troupe is not named) sticker, then shirt;
   * otherwise no key. Classification fails exactly when nothing before the
   * section lookup decides and there is no section.
   */
  lemma ClassificationRules(item: Element)
    ensures item.dataCollection.Some? ==> ClassifyItem(item) == Key(item.dataCollection.value)
    ensures ClassifyItem(item) == SectionMissing <==>
      item.dataCollection.None? && !Names(item.headingAncestorText, AadtName) && item.section.None?
    ensures ClassifyItem(item) == Key("aadt-featured") <==>
      item.dataCollection == Some("aadt-featured") || (InAadt(item) && item.featured)
    ensures ClassifyItem(item) == Key("aadt-social") <==>
      item.dataCollection == Some("aadt-social") ||
      (InAadt(item) && !item.featured && HasImgWith(item, "social"))
    ensures ClassifyItem(item) == Key("aadt-merch") <==>
      item.dataCollection == Some("aadt-merch") ||
      (InAadt(item) && !item.featured && !HasImgWith(item, "social") &&
       (HasImgWith(item, "shirt") || HasImgWith(item, "merch")))
    ensures ClassifyItem(item) == Key("aadt-workshop") <==>
      item.dataCollection == Some("aadt-workshop") ||
      (InAadt(item) && !item.featured && !HasImgWith(item, "social") &&
       !HasImgWith(item, "shirt") && !HasImgWith(item, "merch") && HasImgWith(item, "workshop"))
    ensures ClassifyItem(item) == Key("cs124-stickers") <==>
      item.dataCollection == Some("cs124-stickers") || (InCs124(item) && HasImgWith(item, "sticker"))
    ensures ClassifyItem(item) == Key("cs124-tshirt") <==>
      item.dataCollection == Some("cs124-tshirt") ||
      (InCs124(item) && !HasImgWith(item, "sticker") && HasImgWith(item, "shirt"))
  {
  }

  /** The key list the heuristics can produce. */
  const HeuristicKeys: set<string> :=
    {"aadt-featured", "aadt-social", "aadt-merch", "aadt-workshop", "cs124-stickers", "cs124-tshirt"}

  /**
   * Without a declared key, an item is either given no key or the key of a
   * configured, non-empty collection, so opening it never needs the page
   * lookup.
   */
  lemma HeuristicKeysAreConfigured(item: Element)
    requires item.dataCollection.None?
    ensures ClassifyItem(item).Key? && ClassifyItem(item).key != "" ==>
      ClassifyItem(item).key in HeuristicKeys && ClassifyItem(item).key in InitialRegistry() &&
      InitialRegistry()[ClassifyItem(item).key] != []
  {
  }

  /**
   * `initializeDesignItemClicks`: classifies the `.design-item`s in order and
   * returns the key each one's click listener captures. A classification that
   * throws stops the loop there, so only the items before it get a listener.
   */
  method InitializeDesignItemClicks(items: seq<Element>) returns (keys: seq<string>)
    ensures |keys| <= |items|
    ensures forall i :: 0 <= i < |keys| ==> ClassifyItem(items[i]) == Key(keys[i])
    ensures |keys| < |items| ==> ClassifyItem(items[|keys|]) == SectionMissing
  {
    keys := [];
    var i := 0;
    while i < |items|
      invariant i == |keys| <= |items|
      invariant forall j :: 0 <= j < i ==> ClassifyItem(items[j]) == Key(keys[j])
    {
      var c := ClassifyItem(items[i]);
      if c.SectionMissing? {
        return;
      }
      keys := keys + [c.key];
      i := i + 1;
    }
  }

  // ---------------------------------------------------------------------
  // the fallback collection of an item without a key

  /** `fallback-${index}`: the registry key of item `index`'s own image. */
  function FallbackKey(index: nat): (key: string)
    ensures FallbackPrefix <= key
    ensures AllDigits(key[|FallbackPrefix|..]) && ParseNat(key[|FallbackPrefix|..]) == index
  {
    var key := FallbackPrefix + NatToString(index);
    assert key[|FallbackPrefix|..] == NatToString(index);
    ParseNatToString(index);
    key
  }

  /** `img.alt || h3?.textContent || 'Design Item'`: the caption of an item's own image. */
  function ItemTitle(item: Element): (t: string)
    requires item.imgs != []
    ensures t != ""
    ensures item.imgs[0].alt != "" ==> t == item.imgs[0].alt
    ensures item.imgs[0].alt == "" && item.h3Text.Some? && item.h3Text.value != "" ==> t == item.h3Text.value
    ensures item.imgs[0].alt == "" && (item.h3Text.None? || item.h3Text.value == "") ==> t == DefaultTitle
  {
    var alt := item.imgs[0].alt;
    if alt != "" then alt
    else if item.h3Text.Some? && item.h3Text.value != "" then item.h3Text.value
    else DefaultTitle
  }

  /** The one-image collection the click handler registers for an item without a key. */
  function ItemFallbackEntry(item: Element): (e: ImageEntry)
    requires item.imgs != []
    ensures e.src == item.imgs[0].src && e.title == ItemTitle(item)
  {
    ImageEntry(item.imgs[0].src, ItemTitle(item))
  }

  /** A fallback key never names a configured collection. */
  lemma FallbackKeyNotConfigured(index: nat)
    ensures FallbackKey(index) !in InitialRegistry()
  {
    var k := FallbackKey(index);
    assert k[0] == 'f';
  }

  /** Different items get different fallback keys, so no click overwrites another item's entry. */
  lemma FallbackKeysDistinct(i: nat, j: nat)
    requires i != j
    ensures FallbackKey(i) != FallbackKey(j)
  {
  }
}
