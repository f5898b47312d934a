/**
 * The other stateful pieces of the page script: the mobile menu, the text
 * switchers, the project-report toggle and the PDF viewer modal.
 */
module PageWidgets {
  import opened Wrappers
  import opened JsText
  import opened CyclicIndex

  /** The `active` class on `.hamburger` and on `.nav-menu`. */
  class NavMenu {
    var hamburgerActive: bool
    var menuActive: bool

    /** The two flags are always set and cleared together. */
    ghost predicate Valid()
      reads this
    {
      hamburgerActive == menuActive
    }

    /** Both start without `active`, as in the page markup. */
    constructor ()
      ensures Valid() && !hamburgerActive && !menuActive
    {
      hamburgerActive, menuActive := false, false;
    }

    /** A click on the hamburger toggles both. */
    method OnHamburgerClick()
      requires Valid()
      modifies this
      ensures Valid() && menuActive == !old(menuActive)
    {
      hamburgerActive := !hamburgerActive;
      menuActive := !menuActive;
    }

    /** A click on a `.nav-link` closes the menu. */
    method OnNavLinkClick()
      requires Valid()
      modifies this
      ensures Valid() && !menuActive
    {
      hamburgerActive := false;
      menuActive := false;
    }

    /** A click anywhere outside both the hamburger and the menu closes it. */
    method OnDocumentClick(targetInHamburger: bool, targetInMenu: bool)
      requires Valid()
      modifies this
      ensures Valid()
      ensures !targetInHamburger && !targetInMenu ==> !menuActive
      ensures targetInHamburger || targetInMenu ==> unchanged(this)
    {
      if !targetInHamburger && !targetInMenu {
        hamburgerActive := false;
        menuActive := false;
      }
    }

    /** Escape closes an open menu. */
    method OnKeyDown(key: string)
      requires Valid()
      modifies this
      ensures Valid()
      ensures key == "Escape" ==> !menuActive
      ensures key != "Escape" ==> unchanged(this)
    {
      if key == "Escape" && menuActive {
        hamburgerActive := false;
        menuActive := false;
      }
    }
  }

  /** A `.text-switcher`: each click shows the next of its comma-separated options. */
  class TextSwitcher {
    const options: seq<string>
    var currentIndex: nat
    var text: string

    ghost predicate Valid()
      reads this
    {
      |options| >= 1 && currentIndex < |options|
    }

    /** `data-options` is split on commas; the text is the markup's until the first click. */
    constructor (dataOptions: string, initialText: string)
      ensures Valid()
      ensures options == Split(dataOptions, ',') && currentIndex == 0 && text == initialText
    {
      options := Split(dataOptions, ',');
      currentIndex := 0;
      text := initialText;
    }

    method OnClick()
      requires Valid()
      modifies this
      ensures Valid()
      ensures currentIndex == NextOption(old(currentIndex), |options|)
      ensures text == options[currentIndex]
    {
      currentIndex := (currentIndex + 1) % |options|;
      text := options[currentIndex];
    }
  }

  /** The `#googleDocFrame` iframe, with its `data-src` attribute. */
  datatype DocFrame = DocFrame(dataSrc: Option<string>)

  const ViewReportLabel: string := "<i class=\"fas fa-file-alt\"></i>view project report"
  const HideReportLabel: string := "<i class=\"fas fa-eye-slash\"></i>hide project report"

  /** The source the report iframe is loaded from: a `data-src` that is present and non-empty. */
  function LoadableSource(frame: Option<DocFrame>): (src: Option<string>)
    ensures src.Some? <==> frame.Some? && frame.value.dataSrc.Some? && frame.value.dataSrc.value != ""
    ensures src.Some? ==> src == frame.value.dataSrc
  {
    if frame.Some? && frame.value.dataSrc.Some? && frame.value.dataSrc.value != ""
    then frame.value.dataSrc else None
  }

  /** `#toggleDocBtn` and `#docSection`: shows and hides the report, loading it the first time only. */
  class ReportToggle {
    const frame: Option<DocFrame>
    /** `#docSection` has class `show`. */
    var shown: bool
    /** The button's `innerHTML`. */
    var buttonLabel: string
    /** The `src` the script assigned to the iframe; `None` while it has assigned none. */
    var frameSrc: Option<string>
    var isDocLoaded: bool

    /** The iframe is loaded exactly when the script assigned it its `data-src`. */
    ghost predicate Valid()
      reads this
    {
      (isDocLoaded <==> frameSrc.Some?) && (isDocLoaded ==> frameSrc == LoadableSource(frame))
    }

    constructor (frame: Option<DocFrame>, initiallyShown: bool, initialLabel: string)
      ensures Valid()
      ensures this.frame == frame && shown == initiallyShown && buttonLabel == initialLabel
      ensures frameSrc == None && !isDocLoaded
    {
      this.frame := frame;
      shown := initiallyShown;
      buttonLabel := initialLabel;
      frameSrc := None;
      isDocLoaded := false;
    }

    /**
     * A click flips the section and the button's label; the first showing with
     * a usable `data-src` loads the iframe, and later clicks never reload it.
     */
    method OnToggleClick()
      requires Valid()
      modifies this
      ensures Valid()
      ensures shown == !old(shown)
      ensures buttonLabel == if shown then HideReportLabel else ViewReportLabel
      ensures old(isDocLoaded) ==> isDocLoaded && frameSrc == old(frameSrc)
      ensures !old(isDocLoaded) ==>
        if shown && LoadableSource(frame).Some?
        then isDocLoaded && frameSrc == LoadableSource(frame)
        else !isDocLoaded && frameSrc == None
    {
      if shown {
        shown := false;
        buttonLabel := ViewReportLabel;
      } else {
        shown := true;
        buttonLabel := HideReportLabel;
        if !isDocLoaded && frame.Some? {
          var docSrc := frame.value.dataSrc;
          if docSrc.Some? && docSrc.value != "" {
            frameSrc := docSrc;
            isDocLoaded := true;
          }
        }
      }
    }
  }

  /** What `pdfViewer.src = this.getAttribute('data-pdf')` stores: a missing attribute becomes "null". */
  function PdfSource(dataPdf: Option<string>): (src: string)
    ensures dataPdf.Some? ==> src == dataPdf.value
    ensures dataPdf.None? ==> src == "null"
  {
    if dataPdf.Some? then dataPdf.value else "null"
  }

  /** `#pdfModal` with its `#pdfViewer` iframe. */
  class PdfModal {
    const hasCloseButton: bool
    /** `#pdfModal`'s `style.display` is `'flex'`. */
    var shown: bool
    /** The `src` the script assigned to the viewer; `None` while it has assigned none. */
    var viewerSrc: Option<string>

    /** A hidden viewer never keeps a document: its source is cleared whenever the modal closes. */
    ghost predicate Valid()
      reads this
    {
      !shown ==> viewerSrc == None || viewerSrc == Some("")
    }

    constructor (hasCloseButton: bool)
      ensures Valid() && this.hasCloseButton == hasCloseButton && !shown && viewerSrc == None
    {
      this.hasCloseButton := hasCloseButton;
      shown := false;
      viewerSrc := None;
    }

    /** A click on a `.pdf-popup-trigger` loads its `data-pdf` and shows the modal. */
    method OnTriggerClick(dataPdf: Option<string>)
      requires Valid()
      modifies this
      ensures Valid() && shown && viewerSrc == Some(PdfSource(dataPdf))
    {
      viewerSrc := Some(PdfSource(dataPdf));
      shown := true;
    }

    /** Hides the modal and clears the viewer. */
    method Close()
      requires Valid()
      modifies this
      ensures Valid() && !shown && viewerSrc == Some("")
    {
      shown := false;
      viewerSrc := Some("");
    }

    /** A click on the `.close` button, which exists only if the markup has one. */
    method OnCloseButtonClick()
      requires Valid()
      modifies this
      ensures Valid()
      ensures hasCloseButton ==> !shown && viewerSrc == Some("")
      ensures !hasCloseButton ==> unchanged(this)
    {
      if hasCloseButton {
        Close();
      }
    }

    /** A click on the modal closes it only when it hits the backdrop itself. */
    method OnModalClick(targetIsBackdrop: bool)
      requires Valid()
      modifies this
      ensures Valid()
      ensures targetIsBackdrop ==> !shown && viewerSrc == Some("")
      ensures !targetIsBackdrop ==> unchanged(this)
    {
      if targetIsBackdrop {
        Close();
      }
    }

    /** Escape closes the modal while it is shown. */
    method OnKeyDown(key: string)
      requires Valid()
      modifies this
      ensures Valid()
      ensures key == "Escape" && old(shown) ==> !shown && viewerSrc == Some("")
      ensures !(key == "Escape" && old(shown)) ==> unchanged(this)
    {
      if key == "Escape" && shown {
        Close();
      }
    }
  }
}
