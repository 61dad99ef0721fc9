/** The project detail modal (src/components/ProjectModal.jsx): an effect that
    locks the page's scrolling while the modal is open and a cleanup that
    releases it, a guard that renders nothing without a project key, and the
    translated content with one icon per link. */
module ProjectModal {
  import opened Common
  import opened I18n

  const Hidden := "hidden"
  const Unset := "unset"

  /** The body overflow the effect writes for `isOpen`. */
  function LockFor(isOpen: bool): (overflow: string)
    ensures overflow == Hidden <==> isOpen
    ensures overflow == Unset <==> !isOpen
  {
    if isOpen then Hidden else Unset
  }

  /** The body's overflow style and the dependency (`isOpen`) of the effect
      run whose cleanup is still pending; `None` while unmounted. */
  datatype Host = Host(overflow: string, pending: Option<bool>)

  /** A commit of a render with the given `isOpen`, or the unmount. */
  datatype Lifecycle = Commit(isOpen: bool) | Unmount

  /** React re-runs the effect only when `isOpen` differs from the pending
      run's; the pending cleanup (which writes "unset") runs first. Unmounting
      runs the pending cleanup. */
  function Step(h: Host, ev: Lifecycle): Host {
    match ev
    case Commit(isOpen) =>
      if h.pending == Some(isOpen) then h else Host(LockFor(isOpen), Some(isOpen))
    case Unmount =>
      if h.pending.Some? then Host(Unset, None) else h
  }

  function Run(h: Host, evs: seq<Lifecycle>): Host
    decreases |evs|
  {
    if evs == [] then h else Step(Run(h, evs[..|evs| - 1]), evs[|evs| - 1])
  }

  /** While an effect run is pending the body style is the one it wrote. */
  predicate Consistent(h: Host) {
    h.pending.Some? ==> h.overflow == LockFor(h.pending.value)
  }

  /** The page is locked only while a mounted modal is open. */
  predicate LockHeldByOpenModal(h: Host) {
    h.overflow == Hidden ==> h.pending == Some(true)
  }

  /** From a page that is not locked, over any sequence of commits and
      unmounts: the lock is held only while a mounted modal is open; after a
      commit the style is "hidden" exactly when `isOpen`, and "unset"
      otherwise; and after the unmount the page is never left locked. */
  lemma {:induction false} ScrollLockFollowsIsOpen(h: Host, evs: seq<Lifecycle>)
    requires Consistent(h) && LockHeldByOpenModal(h)
    ensures Consistent(Run(h, evs)) && LockHeldByOpenModal(Run(h, evs))
    ensures evs != [] && evs[|evs| - 1].Commit? ==>
      Run(h, evs).overflow == LockFor(evs[|evs| - 1].isOpen)
    ensures evs != [] && evs[|evs| - 1] == Unmount ==>
      Run(h, evs).overflow != Hidden && Run(h, evs).pending == None
    decreases |evs|
  {
    if evs != [] {
      ScrollLockFollowsIsOpen(h, evs[..|evs| - 1]);
    }
  }

  /** The icon shown before a link's label. */
  datatype Icon = GitHubIcon | BookIcon | ExternalLinkIcon

  /** `label.includes('GitHub') ? GitHub : label.includes('Book') ? Book : ExternalLink`. */
  function LinkIcon(labelText: string): (icon: Icon)
    ensures icon == GitHubIcon <==> Contains(labelText, "GitHub")
    ensures icon == BookIcon <==> !Contains(labelText, "GitHub") && Contains(labelText, "Book")
    ensures icon == ExternalLinkIcon <==> !Contains(labelText, "GitHub") && !Contains(labelText, "Book")
  {
    if Contains(labelText, "GitHub") then GitHubIcon
    else if Contains(labelText, "Book") then BookIcon
    else ExternalLinkIcon
  }

  /** A label holding both words gets the GitHub icon. */
  lemma GitHubBeatsBook(labelText: string)
    requires Contains(labelText, "GitHub") && Contains(labelText, "Book")
    ensures LinkIcon(labelText) == GitHubIcon
  {
  }

  /** The link labels of the page's English catalog get the icons their words name. */
  lemma GitHubLabelIcon()
    ensures LinkIcon("GitHub Repository") == GitHubIcon
  {
    assert StartsWith("GitHub Repository", "GitHub");
  }

  lemma BookLabelIcon()
    ensures LinkIcon("Book Link") == BookIcon
  {
    assert StartsWith("Book Link", "Book");
    FirstCharMissing("Book Link", "GitHub");
  }

  lemma ReportLabelIcon()
    ensures LinkIcon("Full Report") == ExternalLinkIcon
  {
    assert !Contains("Full Report", "GitHub") by { FirstCharMissing("Full Report", "GitHub"); }
    assert !Contains("Full Report", "Book") by { FirstCharMissing("Full Report", "Book"); }
  }

  /** A function prop, known only by its identity. */
  datatype Callback = Callback(id: nat)

  datatype LinkView = LinkView(href: string, icon: Icon, labelText: string)

  datatype ModalBody = ModalBody(imageSrc: string, imageAlt: string, title: string, details: string,
                                 features: seq<string>, links: seq<LinkView>,
                                 backdropClick: Callback, closeButtonClick: Callback)

  /** `null` (no project key), an empty `AnimatePresence` (closed), the open
      modal, or the TypeError thrown by `.map` on a list lookup that is not an array. */
  datatype ModalView = Nothing | Closed | Shown(body: ModalBody) | Fails

  /** The links in order, each with `href = url`, its label and its icon. */
  function LinkViews(links: seq<Link>): (r: seq<LinkView>)
    ensures |r| == |links|
    ensures forall i :: 0 <= i < |r| ==>
      r[i].href == links[i].url && r[i].labelText == links[i].labelText && r[i].icon == LinkIcon(links[i].labelText)
  {
    if links == [] then []
    else [LinkView(links[0].url, LinkIcon(links[0].labelText), links[0].labelText)] + LinkViews(links[1..])
  }

  /** The render after the hooks: the guard on the project key, then the
      open modal with its content looked up under `timeline.<projectKey>.<field>`,
      whose backdrop and close button both invoke the `onClose` prop. */
  function View(isOpen: bool, projectKey: Option<string>, image: string, catalog: Catalog,
                onClose: Callback): (v: ModalView)
    ensures !Truthy(projectKey) ==> v == Nothing
    ensures Truthy(projectKey) && !isOpen ==> v == Closed
    ensures v.Shown? ==>
      var key := projectKey.value;
      && isOpen
      && v.body.imageSrc == image
      && v.body.title == T(catalog, Key(key, "title")) && v.body.imageAlt == v.body.title
      && v.body.details == T(catalog, Key(key, "details"))
      && TList(catalog, Key(key, "items")) == Ok(v.body.features)
      && TLinks(catalog, Key(key, "links")).Ok?
      && |v.body.links| == |TLinks(catalog, Key(key, "links")).value|
      && v.body.links == LinkViews(TLinks(catalog, Key(key, "links")).value)
      && v.body.backdropClick == onClose && v.body.closeButtonClick == onClose
    ensures Truthy(projectKey) && isOpen ==>
      (v.Fails? <==> (TList(catalog, Key(projectKey.value, "items")).TypeError?
                      || TLinks(catalog, Key(projectKey.value, "links")).TypeError?))
    ensures Truthy(projectKey) && isOpen && !v.Fails? ==> v.Shown?
  {
    if !Truthy(projectKey) then Nothing
    else if !isOpen then Closed
    else
      var key := projectKey.value;
      var features := TList(catalog, Key(key, "items"));
      var links := TLinks(catalog, Key(key, "links"));
      if features.TypeError? || links.TypeError? then Fails
      else
        var title := T(catalog, Key(key, "title"));
        Shown(ModalBody(image, title, title, T(catalog, Key(key, "details")),
                        features.value, LinkViews(links.value), onClose, onClose))
  }

  /** The mounted modal: the hooks run before the guard, so the scroll lock
      follows `isOpen` whether or not anything is rendered. */
  class ModalHost {
    var overflow: string          // document.body.style.overflow
    var pending: Option<bool>     // dependency of the effect run awaiting cleanup

    function State(): Host
      reads this
    {
      Host(overflow, pending)
    }

    constructor (overflow0: string)
      ensures State() == Host(overflow0, None)
    {
      overflow, pending := overflow0, None;
    }

    /** Render and commit with props `isOpen` and `projectKey`. A render that
        throws is discarded: its effect never runs, and with no error boundary
        the tree unmounts, which runs the pending cleanup. */
    method Render(isOpen: bool, projectKey: Option<string>, image: string, catalog: Catalog,
                  onClose: Callback)
      returns (view: ModalView)
      modifies this
      ensures view == View(isOpen, projectKey, image, catalog, onClose)
      ensures !view.Fails? ==> State() == Step(old(State()), Commit(isOpen))
      ensures view.Fails? ==> State() == Step(old(State()), Lifecycle.Unmount)
    {
      view := View(isOpen, projectKey, image, catalog, onClose);
      if view.Fails? {
        if pending.Some? {
          overflow := Unset;   // the pending cleanup, as the tree unmounts
          pending := None;
        }
      } else if pending != Some(isOpen) {
        if pending.Some? {
          overflow := Unset;   // the previous run's cleanup
        }
        if isOpen {
          overflow := Hidden;
        } else {
          overflow := Unset;
        }
        pending := Some(isOpen);
      }
    }

    /** Unmounting runs the pending cleanup. */
    method Unmount()
      modifies this
      ensures State() == Step(old(State()), Lifecycle.Unmount)
    {
      if pending.Some? {
        overflow := Unset;
        pending := None;
      }
    }
  }
}
