/** The download menu (src/components/DownloadDropdown.jsx): an open/closed
    flag driven by the trigger button, a document-wide mousedown listener
    (registered on mount, whether the menu is open or not) and clicks on the
    options; and the list of options it renders while open. */
module DownloadDropdown {
  import opened Common
  import opened I18n

  /** A click on the trigger, a mousedown inside or outside the container, or
      a click on the option at `index`. */
  datatype Event = TriggerClick | MouseDown(inside: bool) | OptionClick(index: nat)

  /** The handlers: the trigger negates `isOpen`; a mousedown outside closes,
      one inside changes nothing; an option click closes. */
  function Step(isOpen: bool, e: Event): bool {
    match e
    case TriggerClick => !isOpen
    case MouseDown(inside) => if inside then isOpen else false
    case OptionClick(_) => false
  }

  /** The events that close the menu whatever its state. */
  predicate Closes(e: Event) {
    e.OptionClick? || (e.MouseDown? && !e.inside)
  }

  function Run(isOpen: bool, evs: seq<Event>): bool
    decreases |evs|
  {
    if evs == [] then isOpen else Step(Run(isOpen, evs[..|evs| - 1]), evs[|evs| - 1])
  }

  function TriggerClicks(evs: seq<Event>): nat
    decreases |evs|
  {
    if evs == [] then 0
    else TriggerClicks(evs[..|evs| - 1]) + if evs[|evs| - 1] == TriggerClick then 1 else 0
  }

  /** Without a closing event, every trigger click flips the menu and nothing
      else matters. */
  lemma {:induction false} RunWithoutCloses(isOpen: bool, evs: seq<Event>)
    requires forall i :: 0 <= i < |evs| ==> !Closes(evs[i])
    ensures Run(isOpen, evs) == (isOpen != (TriggerClicks(evs) % 2 == 1))
    decreases |evs|
  {
    if evs != [] {
      RunWithoutCloses(isOpen, evs[..|evs| - 1]);
    }
  }

  /** Events are handled one after another. */
  lemma {:induction false} RunAppend(isOpen: bool, xs: seq<Event>, ys: seq<Event>)
    ensures Run(isOpen, xs + ys) == Run(Run(isOpen, xs), ys)
    decreases |ys|
  {
    if ys == [] {
      assert xs + ys == xs;
    } else {
      assert (xs + ys)[..|xs + ys| - 1] == xs + ys[..|ys| - 1];
      assert (xs + ys)[|xs + ys| - 1] == ys[|ys| - 1];
      RunAppend(isOpen, xs, ys[..|ys| - 1]);
    }
  }

  /** A closing event forgets everything before it: afterwards the menu is
      open exactly when an odd number of trigger clicks followed it. */
  lemma OpenAfterLastClose(isOpen: bool, before: seq<Event>, e: Event, after: seq<Event>)
    requires Closes(e)
    requires forall i :: 0 <= i < |after| ==> !Closes(after[i])
    ensures Run(isOpen, before + [e] + after) == (TriggerClicks(after) % 2 == 1)
  {
    RunAppend(isOpen, before + [e], after);
    RunAppend(isOpen, before, [e]);
    RunWithoutCloses(false, after);
  }

  /** The component's state. */
  class Dropdown {
    var isOpen: bool

    /** `useState(false)`: the menu starts closed. */
    constructor ()
      ensures !isOpen
    {
      isOpen := false;
    }

    /** `onClick={() => setIsOpen(!isOpen)}` on the trigger. */
    method OnTriggerClick()
      modifies this
      ensures isOpen == Step(old(isOpen), TriggerClick)
      ensures isOpen == !old(isOpen)
    {
      isOpen := !isOpen;
    }

    /** `handleClickOutside`: closes on a mousedown outside the container;
        closing a closed menu is a no-op. */
    method OnMouseDown(inside: bool)
      modifies this
      ensures isOpen == Step(old(isOpen), MouseDown(inside))
      ensures inside ==> isOpen == old(isOpen)
      ensures !inside ==> !isOpen
    {
      if !inside {
        isOpen := false;
      }
    }

    /** `onClick={() => setIsOpen(false)}` on an option. */
    method OnOptionClick(index: nat)
      modifies this
      ensures isOpen == Step(old(isOpen), OptionClick(index))
      ensures !isOpen
    {
      isOpen := false;
    }
  }

  /** One downloadable file: where it is, the translation key of its label and
      its optional colour classes. */
  datatype DownloadOption = DownloadOption(file: string, labelKey: string, colorClasses: Option<string>)

  /** One rendered `<a href download>` with its label and icon colour. */
  datatype MenuEntry = MenuEntry(href: string, labelText: string, color: string)

  const DefaultColor := "bg-blue-50 dark:bg-blue-900/30 text-blue-600 dark:text-blue-400"

  /** `option.colorClasses || default`: an empty or missing value falls back. */
  function ColorOf(o: DownloadOption): (color: string)
    ensures Truthy(o.colorClasses) ==> color == o.colorClasses.value
    ensures !Truthy(o.colorClasses) ==> color == DefaultColor
    ensures color != ""
  {
    if Truthy(o.colorClasses) then o.colorClasses.value else DefaultColor
  }

  function Entries(options: seq<DownloadOption>, catalog: Catalog): (entries: seq<MenuEntry>)
    ensures |entries| == |options|
    ensures forall i :: 0 <= i < |entries| ==>
      entries[i] == MenuEntry(options[i].file, T(catalog, options[i].labelKey), ColorOf(options[i]))
  {
    if options == [] then []
    else [MenuEntry(options[0].file, T(catalog, options[0].labelKey), ColorOf(options[0]))]
         + Entries(options[1..], catalog)
  }

  /** The menu: nothing while closed; while open, one entry per option, in
      order, linking to the option's file under its translated label. */
  function Menu(isOpen: bool, options: seq<DownloadOption>, catalog: Catalog): (entries: seq<MenuEntry>)
    ensures !isOpen ==> entries == []
    ensures isOpen ==> |entries| == |options|
    ensures isOpen ==> entries == Entries(options, catalog)
  {
    if isOpen then Entries(options, catalog) else []
  }
}
