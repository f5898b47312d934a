/**
 * The design-item gallery modal: one controller per page holding the
 * collection registry, the collection and index on show, and the modal's
 * view flags. The modal's markup is reduced to the values it shows, given by
 * `Render`.
 */
module DesignGallery {
  import opened Wrappers
  import opened JsText
  import opened CyclicIndex
  import opened DesignItems

  /** `document.body.style.overflow`: untouched, `'hidden'` (scroll locked) or `'auto'`. */
  datatype Overflow = Unset | Hidden | Auto

  /**
   * What the modal shows: the image's source and alt text, the caption, whether
   * the previous/next controls are displayed, and the counter text when the
   * counter is displayed.
   */
  datatype ViewModel = ViewModel(
    imageSrc: string,
    imageAlt: string,
    title: string,
    navShown: bool,
    counter: Option<string>)

  /**
   * `updateDesignModalContent`: a fresh image for the current entry, its title
   * as caption, and controls plus a `position / total` counter exactly when
   * the collection has more than one image.
   */
  function Render(collection: seq<ImageEntry>, index: int): (v: ViewModel)
    requires 0 <= index < |collection|
    ensures v.imageSrc == collection[index].src
    ensures v.title == collection[index].title && v.imageAlt == collection[index].title
    ensures v.navShown <==> |collection| > 1
    ensures v.counter.Some? <==> |collection| > 1
    ensures v.counter.Some? ==> ParseCounter(v.counter.value) == Some((index + 1, |collection|))
  {
    ViewModel(
      collection[index].src,
      collection[index].title,
      collection[index].title,
      |collection| > 1,
      if |collection| > 1 then Some(CounterText(index + 1, |collection|)) else None)
  }

  /** The registry still holds every configured collection unchanged. */
  ghost predicate KeepsConfiguration(registry: Registry)
  {
    forall key :: key in InitialRegistry() ==> key in registry && registry[key] == InitialRegistry()[key]
  }

  class Gallery {
    /** The page, read-only: the elements the fallback lookup searches, in document order. */
    const doc: seq<Element>
    /** `imageCollections`. */
    var registry: Registry
    /** `currentCollection` and `currentImageIndex`. */
    var currentCollection: seq<ImageEntry>
    var currentImageIndex: int
    /** `#designModal` has been created. */
    var modalExists: bool
    /** `#designModal`'s `style.display` is `'flex'`. */
    var visible: bool
    /** `document.body.style.overflow`. */
    var overflow: Overflow

    /**
     * The index is valid for the collection on show (0 before anything is
     * shown), the modal exists only once something was shown, and the page
     * scroll is locked exactly while the modal is visible.
     */
    ghost predicate Valid()
      reads this
    {
      && KeepsConfiguration(registry)
      && 0 <= currentImageIndex
      && (currentCollection == [] ==> currentImageIndex == 0)
      && (currentCollection != [] ==> currentImageIndex < |currentCollection|)
      && (modalExists ==> currentCollection != [])
      && (visible ==> modalExists)
      && (visible <==> overflow == Hidden)
    }

    constructor (doc: seq<Element>)
      ensures Valid()
      ensures this.doc == doc && registry == InitialRegistry()
      ensures currentCollection == [] && currentImageIndex == 0
      ensures !modalExists && !visible && overflow == Unset
    {
      this.doc := doc;
      registry := InitialRegistry();
      currentCollection := [];
      currentImageIndex := 0;
      modalExists := false;
      visible := false;
      overflow := Unset;
    }

    /** The content of the modal, once it exists. */
    function View(): (v: Option<ViewModel>)
      reads this
      requires Valid()
      ensures v.Some? <==> modalExists
      ensures v.Some? ==> v.value == Render(currentCollection, currentImageIndex)
    {
      if modalExists then Some(Render(currentCollection, currentImageIndex)) else None
    }

    /**
     * `openDesignModal(key)`: shows the resolved collection from its first
     * image, creating the modal if needed and locking the page scroll; when
     * nothing resolves, nothing changes.
     */
    method OpenDesignModal(key: string)
      requires Valid()
      modifies this
      ensures Valid()
      ensures registry == old(registry)
      ensures ResolveCollection(old(registry), doc, key).None? ==> unchanged(this)
      ensures ResolveCollection(old(registry), doc, key).Some? ==>
        && currentCollection == ResolveCollection(old(registry), doc, key).value
        && currentImageIndex == 0
        && modalExists && visible && overflow == Hidden
    {
      var resolved := ResolveCollection(registry, doc, key);
      if resolved.None? {
        return;
      }
      currentCollection := resolved.value;
      currentImageIndex := 0;
      if !modalExists {
        modalExists := true;
      }
      visible := true;
      overflow := Hidden;
    }

    /**
     * `closeDesignModal`: hides an existing modal and restores the page
     * scroll; before the modal exists it does nothing. The collection and
     * index stay as they were.
     */
    method CloseDesignModal()
      requires Valid()
      modifies this
      ensures Valid()
      ensures registry == old(registry) && modalExists == old(modalExists)
      ensures currentCollection == old(currentCollection) && currentImageIndex == old(currentImageIndex)
      ensures old(modalExists) ==> !visible && overflow == Auto
      ensures !old(modalExists) ==> unchanged(this)
    {
      if modalExists {
        visible := false;
        overflow := Auto;
      }
    }

    /**
     * `navigateDesignImage(direction)`: moves cyclically through a collection
     * of more than one image, whether or not the modal is visible.
     */
    method NavigateDesignImage(direction: int)
      requires Valid()
      requires |currentCollection| > 1 ==> 0 <= currentImageIndex + direction + |currentCollection|
      modifies this
      ensures Valid()
      ensures currentImageIndex == NavigateIndex(old(currentImageIndex), direction, |currentCollection|)
      ensures registry == old(registry) && currentCollection == old(currentCollection)
      ensures modalExists == old(modalExists) && visible == old(visible) && overflow == old(overflow)
    {
      if |currentCollection| <= 1 {
        return;
      }
      currentImageIndex := JsRemainder(currentImageIndex + direction + |currentCollection|, |currentCollection|);
    }

    /**
     * The click listener of design item `index`, which captured `key`: a click
     * inside a link is ignored; a key opens its collection; an item without a
     * key but with an image registers `fallback-<index>` holding that image
     * alone and opens it; otherwise nothing happens.
     */
    method OnItemClick(index: nat, item: Element, key: string, targetInLink: bool)
      requires Valid()
      modifies this
      ensures Valid()
      ensures targetInLink || (key == "" && item.imgs == []) ==> unchanged(this)
      ensures !targetInLink && key != "" ==>
        && registry == old(registry)
        && (ResolveCollection(old(registry), doc, key).None? ==> unchanged(this))
        && (ResolveCollection(old(registry), doc, key).Some? ==>
              currentCollection == ResolveCollection(old(registry), doc, key).value &&
              currentImageIndex == 0 && modalExists && visible && overflow == Hidden)
      ensures !targetInLink && key == "" && item.imgs != [] ==>
        && registry == old(registry)[FallbackKey(index) := [ItemFallbackEntry(item)]]
        && currentCollection == [ItemFallbackEntry(item)]
        && currentImageIndex == 0 && modalExists && visible && overflow == Hidden
    {
      if targetInLink {
        return;
      }
      if key != "" {
        OpenDesignModal(key);
      } else if item.imgs != [] {
        var fallbackKey := FallbackKey(index);
        FallbackKeyNotConfigured(index);
        registry := registry[fallbackKey := [ItemFallbackEntry(item)]];
        OpenDesignModal(fallbackKey);
      }
    }

    /** The modal's keydown listener: only while the modal is visible, Escape closes and the arrows navigate. */
    method OnKeyDown(key: string)
      requires Valid()
      modifies this
      ensures Valid()
      ensures registry == old(registry) && currentCollection == old(currentCollection)
      ensures modalExists == old(modalExists)
      ensures !old(visible) || key !in {"Escape", "ArrowLeft", "ArrowRight"} ==> unchanged(this)
      ensures old(visible) && key == "Escape" ==>
        !visible && overflow == Auto && currentImageIndex == old(currentImageIndex)
      ensures old(visible) && key == "ArrowLeft" ==>
        visible && overflow == old(overflow) &&
        currentImageIndex == NavigateIndex(old(currentImageIndex), -1, |currentCollection|)
      ensures old(visible) && key == "ArrowRight" ==>
        visible && overflow == old(overflow) &&
        currentImageIndex == NavigateIndex(old(currentImageIndex), 1, |currentCollection|)
    {
      if visible {
        if key == "Escape" {
          CloseDesignModal();
        } else if key == "ArrowLeft" {
          NavigateDesignImage(-1);
        } else if key == "ArrowRight" {
          NavigateDesignImage(1);
        }
      }
    }

    /** `window.openPosterModal`: always shows the two featured posters from the first. */
    method OpenPosterModal()
      requires Valid()
      modifies this
      ensures Valid() && registry == old(registry)
      ensures currentCollection == InitialRegistry()["aadt-featured"] && currentImageIndex == 0
      ensures modalExists && visible && overflow == Hidden
    {
      OpenDesignModal("aadt-featured");
    }

    /** `window.closePosterModal`. */
    method ClosePosterModal()
      requires Valid()
      modifies this
      ensures Valid()
      ensures registry == old(registry) && modalExists == old(modalExists)
      ensures currentCollection == old(currentCollection) && currentImageIndex == old(currentImageIndex)
      ensures old(modalExists) ==> !visible && overflow == Auto
      ensures !old(modalExists) ==> unchanged(this)
    {
      CloseDesignModal();
    }

    /** `window.switchPoster(direction)`, which forwards any direction. */
    method SwitchPoster(direction: int)
      requires Valid()
      requires |currentCollection| > 1 ==> 0 <= currentImageIndex + direction + |currentCollection|
      modifies this
      ensures Valid()
      ensures currentImageIndex == NavigateIndex(old(currentImageIndex), direction, |currentCollection|)
      ensures registry == old(registry) && currentCollection == old(currentCollection)
      ensures modalExists == old(modalExists) && visible == old(visible) && overflow == old(overflow)
    {
      NavigateDesignImage(direction);
    }
  }

  /** The counter texts of the first two images of a three-image collection. */
  lemma CounterExamples()
    ensures CounterText(1, 3) == "1 / 3" && CounterText(2, 3) == "2 / 3"
  {
    assert NatToString(1) == "1" && NatToString(2) == "2" && NatToString(3) == "3";
  }

  /**
   * A session on the page: the counter of a three-image collection reads
   * "1 / 3", then "2 / 3"; closing twice is the same as closing once; a new
   * open starts again from the first image, and one image shows no controls.
   */
  method GallerySession(doc: seq<Element>)
  {
    var g := new Gallery(doc);
    g.CloseDesignModal();
    assert !g.modalExists && g.overflow == Unset;

    g.OpenDesignModal("aadt-social");
    assert |g.currentCollection| == 3 && g.currentImageIndex == 0;
    CounterExamples();
    assert g.View().value.counter == Some("1 / 3");
    assert g.View().value.title == "Instagram Post";
    g.NavigateDesignImage(1);
    assert g.currentImageIndex == 1;
    assert g.View().value.counter == Some("2 / 3");
    assert g.View().value.imageSrc == "images/social2.png";

    g.CloseDesignModal();
    g.CloseDesignModal();
    assert !g.visible && g.overflow == Auto && g.currentImageIndex == 1;

    g.OpenDesignModal("web-ui");
    assert g.currentImageIndex == 0 && g.View().value.counter == None && !g.View().value.navShown;
    g.NavigateDesignImage(1);
    assert g.currentImageIndex == 0;
  }

  /** An item without a key, whose image is `images/x.png` with alt text "X Design", shows that image alone. */
  method FallbackSession(doc: seq<Element>)
  {
    var g := new Gallery(doc);
    var img := Img("images/x.png", "images/x.png", "X Design");
    var item := Element(None, false, [img], None, None, Some(Section(None)));
    g.OnItemClick(4, item, "", false);
    assert g.currentCollection == [ImageEntry("images/x.png", "X Design")];
    assert g.View().value.title == "X Design" && g.View().value.counter == None;
    assert g.visible && g.overflow == Hidden;
  }
}
