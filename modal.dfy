/**
 The modal controller: one overlay that is Closed or Open with a payload,
 with three optional reactions chosen when it is created: close on the
 Escape key, close on a mouse press outside the overlay, and lock the page's
 scrolling while open (saving the body's overflow style when it opens and
 restoring exactly that value when it closes).

 The state machine is specified by pure step functions over `ModalState`;
 the class `ModalController` holds the same state in fields and each of its
 methods is proved to perform one step.
 */
module Modal {
  import opened Sequences

  /** The hook's options. */
  datatype ModalOptions = ModalOptions(
    closeOnOutsideClick: bool,
    closeOnEscape: bool,
    lockBodyScroll: bool)

  /** The options of a modal created without any: every reaction is on. */
  const DefaultOptions: ModalOptions := ModalOptions(true, true, true)

  /** The body overflow style that stops the page from scrolling. */
  const HiddenOverflow: string := "hidden"

  /** The `key` of the keyboard event that closes the modal. */
  const EscapeKey: string := "Escape"

  /** Identity of a DOM element. */
  type ElementId = nat

  /**
   The open flag and payload (`None` is `null`), the page body's overflow
   style, and the overflow style captured when the modal last opened.
   */
  datatype ModalState<T> = ModalState(
    isOpen: bool,
    data: Option<T>,
    bodyOverflow: string,
    savedOverflow: string)

  /**
   What every reachable state satisfies: a closed modal holds no payload,
   and a scroll-locking modal that is open has hidden the body's overflow.
   */
  ghost predicate Inv<T>(o: ModalOptions, s: ModalState<T>)
  {
    && (!s.isOpen ==> s.data == None)
    && (o.lockBodyScroll && s.isOpen ==> s.bodyOverflow == HiddenOverflow)
  }

  /** A fresh modal is closed, without payload, on a page with the given overflow style. */
  function Initial<T>(bodyOverflow: string): (s: ModalState<T>)
    ensures !s.isOpen && s.data == None && s.bodyOverflow == bodyOverflow
  {
    ModalState(false, None, bodyOverflow, bodyOverflow)
  }

  /**
   `open(payload)`: the modal is open with `payload`. Opening a closed,
   scroll-locking modal saves the current overflow style and hides it;
   re-opening an open one only replaces the payload.
   */
  function OpenStep<T>(o: ModalOptions, s: ModalState<T>, payload: Option<T>): (r: ModalState<T>)
    ensures r.isOpen && r.data == payload
  {
    if o.lockBodyScroll && !s.isOpen then ModalState(true, payload, HiddenOverflow, s.bodyOverflow)
    else s.(isOpen := true, data := payload)
  }

  /**
   `close()`: the modal is closed and forgets its payload. Closing an open,
   scroll-locking modal puts back the overflow style saved when it opened.
   */
  function CloseStep<T>(o: ModalOptions, s: ModalState<T>): (r: ModalState<T>)
    ensures !r.isOpen && r.data == None
  {
    if o.lockBodyScroll && s.isOpen then ModalState(false, None, s.savedOverflow, s.savedOverflow)
    else s.(isOpen := false, data := None)
  }

  /** `toggle()`: close an open modal, open a closed one without payload. */
  function ToggleStep<T>(o: ModalOptions, s: ModalState<T>): (r: ModalState<T>)
    ensures r.isOpen == !s.isOpen && r.data == None
  {
    if s.isOpen then CloseStep(o, s) else OpenStep(o, s, None)
  }

  /** A key press: only Escape, on an open modal that closes on Escape, does anything. */
  function KeyDownStep<T>(o: ModalOptions, s: ModalState<T>, key: string): (r: ModalState<T>)
    ensures r == s || r == CloseStep(o, s)
    ensures r.isOpen <==> s.isOpen && !(o.closeOnEscape && key == EscapeKey)
  {
    if o.closeOnEscape && s.isOpen && key == EscapeKey then CloseStep(o, s) else s
  }

  /**
   A mouse press on `target`. `node` is the set of elements inside the
   rendered overlay, or `None` when no overlay element is mounted (then no
   listener is attached). With outside-click closing enabled, a press outside
   the overlay closes the modal; the handler does not look at `isOpen`.
   */
  function MouseDownStep<T>(o: ModalOptions, s: ModalState<T>, node: Option<set<ElementId>>,
                            target: ElementId): (r: ModalState<T>)
    ensures r == s || r == CloseStep(o, s)
    ensures r.isOpen <==> s.isOpen && !(o.closeOnOutsideClick && node.Some? && target !in node.value)
  {
    if o.closeOnOutsideClick && node.Some? && target !in node.value then CloseStep(o, s) else s
  }

  /**
   Unmounting the component runs the scroll-lock cleanup: if it was open and
   locking, the saved overflow style is put back.
   */
  function UnmountStep<T>(o: ModalOptions, s: ModalState<T>): (r: ModalState<T>)
    ensures r.isOpen == s.isOpen && r.data == s.data
  {
    if o.lockBodyScroll && s.isOpen then s.(bodyOverflow := s.savedOverflow) else s
  }

  /** Every step keeps the invariant. */
  lemma StepsKeepInv<T>(o: ModalOptions, s: ModalState<T>, payload: Option<T>, key: string,
                        node: Option<set<ElementId>>, target: ElementId)
    requires Inv(o, s)
    ensures Inv(o, OpenStep(o, s, payload))
    ensures Inv(o, CloseStep(o, s))
    ensures Inv(o, ToggleStep(o, s))
    ensures Inv(o, KeyDownStep(o, s, key))
    ensures Inv(o, MouseDownStep(o, s, node, target))
  {
  }

  /** Opening an open modal replaces the payload: the last caller wins and nothing is stacked. */
  lemma OpenReplacesPayload<T>(o: ModalOptions, s: ModalState<T>, x: Option<T>, y: Option<T>)
    ensures OpenStep(o, OpenStep(o, s, x), y) == OpenStep(o, s, y)
  {
  }

  /** Closing twice is closing once. */
  lemma CloseIdempotent<T>(o: ModalOptions, s: ModalState<T>)
    ensures CloseStep(o, CloseStep(o, s)) == CloseStep(o, s)
  {
  }

  /** Closing a closed modal changes nothing. */
  lemma CloseWhenClosedIsNoop<T>(o: ModalOptions, s: ModalState<T>)
    requires Inv(o, s) && !s.isOpen
    ensures CloseStep(o, s) == s
  {
  }

  /**
   Opening a closed modal and closing it again gives back the open flag, the
   payload and the body's overflow style it started with, whatever that style
   was.
   */
  lemma OpenThenCloseRestores<T>(o: ModalOptions, s: ModalState<T>, payload: Option<T>)
    requires Inv(o, s) && !s.isOpen
    ensures var r := CloseStep(o, OpenStep(o, s, payload));
      r.isOpen == s.isOpen && r.data == s.data && r.bodyOverflow == s.bodyOverflow
  {
  }

  /** Toggling twice from Closed gives back the open flag, payload and overflow style. */
  lemma ToggleTwiceFromClosed<T>(o: ModalOptions, s: ModalState<T>)
    requires Inv(o, s) && !s.isOpen
    ensures var r := ToggleStep(o, ToggleStep(o, s));
      r.isOpen == s.isOpen && r.data == s.data && r.bodyOverflow == s.bodyOverflow
  {
  }

  /**
   A key press changes the state exactly when closing on Escape is enabled,
   the modal is open and the key is Escape; it then closes the modal.
   */
  lemma KeyDownClosesOnlyOnEscape<T>(o: ModalOptions, s: ModalState<T>, key: string)
    ensures KeyDownStep(o, s, key) != s <==> o.closeOnEscape && s.isOpen && key == EscapeKey
    ensures KeyDownStep(o, s, key) != s ==> !KeyDownStep(o, s, key).isOpen
  {
  }

  /** A second Escape after the one that closed the modal does nothing. */
  lemma EscapeIdempotent<T>(o: ModalOptions, s: ModalState<T>)
    ensures KeyDownStep(o, KeyDownStep(o, s, EscapeKey), EscapeKey) == KeyDownStep(o, s, EscapeKey)
  {
  }

  /**
   A press changes the state exactly when outside-click closing is enabled,
   an overlay is mounted, the press is outside it and the modal is open; it
   then closes the modal. A press inside the overlay, a press with no overlay
   mounted and a press on a closed modal change nothing, although the handler
   does not check `isOpen`.
   */
  lemma MouseDownOutsideOnly<T>(o: ModalOptions, s: ModalState<T>, node: Option<set<ElementId>>, target: ElementId)
    requires Inv(o, s)
    ensures MouseDownStep(o, s, node, target) != s <==>
      o.closeOnOutsideClick && node.Some? && target !in node.value && s.isOpen
    ensures MouseDownStep(o, s, node, target) != s ==> !MouseDownStep(o, s, node, target).isOpen
    ensures node.Some? && target in node.value ==> MouseDownStep(o, s, node, target) == s
    ensures node.None? ==> MouseDownStep(o, s, node, target) == s
    ensures !s.isOpen ==> MouseDownStep(o, s, node, target) == s
  {
  }

  /** The operations and events that drive the modal. */
  datatype ModalEvent<T> =
    | Open(payload: Option<T>)
    | Close
    | Toggle
    | KeyDown(key: string)
    | MouseDown(node: Option<set<ElementId>>, target: ElementId)

  /** The state after one operation or event; every step keeps the invariant. */
  function Step<T>(o: ModalOptions, s: ModalState<T>, e: ModalEvent<T>): (r: ModalState<T>)
    ensures Inv(o, s) ==> Inv(o, r)
  {
    match e
    case Open(payload) => OpenStep(o, s, payload)
    case Close => CloseStep(o, s)
    case Toggle => ToggleStep(o, s)
    case KeyDown(key) => KeyDownStep(o, s, key)
    case MouseDown(node, target) => MouseDownStep(o, s, node, target)
  }

  /** The state after the events `es`, in order. */
  function Run<T>(o: ModalOptions, s: ModalState<T>, es: seq<ModalEvent<T>>): (r: ModalState<T>)
    ensures Inv(o, s) ==> Inv(o, r)
    decreases |es|
  {
    if es == [] then s else Run(o, Step(o, s, es[0]), es[1..])
  }

  /**
   The scroll-lock bookkeeping against the page's own overflow style `page`:
   while closed the body shows `page`; while open with the lock, the body is
   hidden and `page` is what was saved; without the lock the body always
   shows `page`.
   */
  ghost predicate OverflowTracks<T>(o: ModalOptions, s: ModalState<T>, page: string)
  {
    && Inv(o, s)
    && (!s.isOpen ==> s.bodyOverflow == page)
    && (o.lockBodyScroll && s.isOpen ==> s.savedOverflow == page)
    && (!o.lockBodyScroll ==> s.bodyOverflow == page)
  }

  /**
   Whatever the events, the body's overflow style is never lost: from a
   closed modal, every later closed state shows the page's original style,
   an open scroll-locking modal shows "hidden", and a modal that does not
   lock scrolling never touches the style. Unmounting at any point leaves
   the original style.
   */
  lemma {:induction false} OverflowRestored<T>(o: ModalOptions, s: ModalState<T>, es: seq<ModalEvent<T>>)
    requires Inv(o, s) && !s.isOpen
    ensures var r := Run(o, s, es);
      && (!r.isOpen ==> r.bodyOverflow == s.bodyOverflow)
      && (r.isOpen && o.lockBodyScroll ==> r.bodyOverflow == HiddenOverflow)
      && (!o.lockBodyScroll ==> r.bodyOverflow == s.bodyOverflow)
      && UnmountStep(o, r).bodyOverflow == s.bodyOverflow
  {
    RunKeepsOverflowTracked(o, s, es, s.bodyOverflow);
  }

  lemma {:induction false} RunKeepsOverflowTracked<T>(o: ModalOptions, s: ModalState<T>,
                                                      es: seq<ModalEvent<T>>, page: string)
    requires OverflowTracks(o, s, page)
    ensures OverflowTracks(o, Run(o, s, es), page)
    decreases |es|
  {
    if es != [] {
      var t := Step(o, s, es[0]);
      assert OverflowTracks(o, t, page);
      RunKeepsOverflowTracked(o, t, es[1..], page);
    }
  }

  /** A modal that does not lock scrolling never writes the body's overflow style, from any state. */
  lemma {:induction false} UnlockedLeavesOverflow<T>(o: ModalOptions, s: ModalState<T>, es: seq<ModalEvent<T>>)
    requires !o.lockBodyScroll
    ensures Run(o, s, es).bodyOverflow == s.bodyOverflow
    decreases |es|
  {
    if es != [] {
      UnlockedLeavesOverflow(o, Step(o, s, es[0]), es[1..]);
    }
  }

  /** The hook's state as mutable fields; each method performs one step. */
  class ModalController<T> {
    const options: ModalOptions
    var isOpen: bool
    var data: Option<T>
    var bodyOverflow: string
    var savedOverflow: string

    function State(): ModalState<T>
      reads this
    {
      ModalState(isOpen, data, bodyOverflow, savedOverflow)
    }

    ghost predicate Valid()
      reads this
    {
      Inv(options, State())
    }

    /** A closed modal on a page whose body has the given overflow style. */
    constructor (options: ModalOptions, bodyOverflow: string)
      ensures Valid()
      ensures this.options == options && State() == Initial(bodyOverflow)
    {
      this.options := options;
      isOpen := false;
      data := None;
      this.bodyOverflow := bodyOverflow;
      savedOverflow := bodyOverflow;
    }

    /** A modal created without options: outside clicks, Escape and the scroll lock all enabled. */
    constructor WithDefaults(bodyOverflow: string)
      ensures Valid()
      ensures options == DefaultOptions && State() == Initial(bodyOverflow)
    {
      options := DefaultOptions;
      isOpen := false;
      data := None;
      this.bodyOverflow := bodyOverflow;
      savedOverflow := bodyOverflow;
    }

    method Open(payload: Option<T>)
      requires Valid()
      modifies this
      ensures Valid()
      ensures State() == OpenStep(options, old(State()), payload)
    {
      if options.lockBodyScroll && !isOpen {
        savedOverflow := bodyOverflow;
        bodyOverflow := HiddenOverflow;
      }
      data := payload;
      isOpen := true;
    }

    method Close()
      requires Valid()
      modifies this
      ensures Valid()
      ensures State() == CloseStep(options, old(State()))
    {
      if options.lockBodyScroll && isOpen {
        bodyOverflow := savedOverflow;
      }
      isOpen := false;
      data := None;
    }

    method Toggle()
      requires Valid()
      modifies this
      ensures Valid()
      ensures State() == ToggleStep(options, old(State()))
    {
      if isOpen {
        Close();
      } else {
        Open(None);
      }
    }

    /** The `keydown` listener. */
    method HandleKeyDown(key: string)
      requires Valid()
      modifies this
      ensures Valid()
      ensures State() == KeyDownStep(options, old(State()), key)
    {
      if options.closeOnEscape && isOpen && key == EscapeKey {
        Close();
      }
    }

    /** The `mousedown` listener installed through the overlay's ref. */
    method HandleMouseDown(node: Option<set<ElementId>>, target: ElementId)
      requires Valid()
      modifies this
      ensures Valid()
      ensures State() == MouseDownStep(options, old(State()), node, target)
    {
      if options.closeOnOutsideClick && node.Some? && target !in node.value {
        Close();
      }
    }

    /** Tearing the component down runs the scroll-lock cleanup. */
    method Unmount()
      modifies this
      ensures State() == UnmountStep(options, old(State()))
    {
      if options.lockBodyScroll && isOpen {
        bodyOverflow := savedOverflow;
      }
    }
  }
}
