/**
 * The content script: PDF classification, the selection rule, and the listeners it
 * registers on the page, the PDF viewer root and same-origin iframes.
 */
module Content {
  import opened Js
  import opened Messages

  const PdfContentType := "application/pdf"

  /**
   * `isPDF` in `checkForPDF`, with its four disjuncts as written. The `file://` disjunct is
   * subsumed by the `.pdf` suffix test, so the predicate is the three remaining tests.
   */
  function IsPdf(contentType: string, href: string): (r: bool)
    ensures r <==> contentType == PdfContentType || Includes(href, "pdfjs") || EndsWith(href, ".pdf")
  {
    contentType == PdfContentType
    || Includes(href, "pdfjs")
    || EndsWith(href, ".pdf")
    || (StartsWith(href, "file://") && EndsWith(href, ".pdf"))
  }

  /**
   * What `handleTextSelection`, and the regular-page `mouseup` listener, send for a selection:
   * one `textSelected` message carrying the trimmed selection when that is non-empty, else nothing.
   */
  function SelectionMessages(selection: string): seq<Message>
  {
    if |Trim(selection)| > 0 then [TextSelected(Trim(selection))] else []
  }

  /** At most one message; one exactly when the selection is not all whitespace; it carries the trimmed text. */
  lemma SelectionRule(selection: string)
    ensures |SelectionMessages(selection)| <= 1
    ensures |SelectionMessages(selection)| == 1 <==> !AllWhitespace(selection)
    ensures forall m :: m in SelectionMessages(selection) ==> m == TextSelected(Trim(selection)) && Trim(selection) != ""
  {
    TrimEmptyIff(selection);
  }

  /** The reply to a `getSelectedText` message: the selection as it is, untrimmed; other actions get none. */
  function SelectionReply(message: Message, selection: string): (reply: Option<string>)
    ensures reply.Some? <==> message.action == GetSelectedTextAction
    ensures reply.Some? ==> reply.value == selection
  {
    if message.action == GetSelectedTextAction then Some(selection) else None
  }

  /** What `document.querySelector` found for `#viewer`, `.pdfViewer` and `#viewerContainer`. */
  datatype ViewerQuery = ViewerQuery(viewer: Option<nat>, pdfViewer: Option<nat>, viewerContainer: Option<nat>)

  /** The viewer root: the first selector, in order, that matched. */
  function FindViewerRoot(q: ViewerQuery): (r: Option<nat>)
    ensures r.Some? <==> q.viewer.Some? || q.pdfViewer.Some? || q.viewerContainer.Some?
    ensures q.viewer.Some? ==> r == q.viewer
    ensures q.viewer.None? && q.pdfViewer.Some? ==> r == q.pdfViewer
    ensures q.viewer.None? && q.pdfViewer.None? ==> r == q.viewerContainer
  {
    if q.viewer.Some? then q.viewer
    else if q.pdfViewer.Some? then q.pdfViewer
    else q.viewerContainer
  }

  datatype Target = Document | ViewerRoot(element: nat) | IframeDocument(frame: nat)
  datatype EventType = MouseUp | KeyUp | SelectionChange | ContextMenu
  datatype MutationKind = ChildList | Attributes | CharacterData

  /**
   * A listener function: the one shared `handleTextSelection` (`SharedHandler`), or an arrow function, which is
   * a new function each time its registration runs (numbered by creation).
   */
  datatype Handler =
    | SharedHandler
    | ModifierKeyup(closure: nat)
    | WebsiteMouseup(closure: nat)
    | DelayedSelection(closure: nat)

  datatype Listener = Listener(target: Target, event: EventType, handler: Handler)

  /** An `iframe` of the page: the identity of its document, and whether the script may reach it. */
  datatype Iframe = Iframe(frame: nat, accessible: bool)

  datatype Event = Event(kind: EventType, ctrlKey: bool, metaKey: bool)

  /** Each listener function is registered only for the events its registration uses. */
  predicate Sound(l: Listener)
  {
    match l.handler
    case SharedHandler => l.event == MouseUp || l.event == SelectionChange
    case ModifierKeyup(_) => l.event == KeyUp
    case WebsiteMouseup(_) => l.event == MouseUp && l.target == Document
    case DelayedSelection(_) => l.event == ContextMenu && l.target == Document
  }

  /** The arrow function was created before closure number `next`. */
  predicate CreatedBefore(h: Handler, next: nat)
  {
    match h
    case SharedHandler => true
    case ModifierKeyup(c) => c < next
    case WebsiteMouseup(c) => c < next
    case DelayedSelection(c) => c < next
  }

  predicate NoDuplicates(ls: seq<Listener>)
  {
    forall i, j :: 0 <= i < j < |ls| ==> ls[i] != ls[j]
  }

  /**
   * The registry's invariant: no registration twice, each listener on the events its
   * registration uses, every arrow function created before number `next`.
   */
  predicate ListenersOk(ls: seq<Listener>, next: nat)
  {
    NoDuplicates(ls) && forall i :: 0 <= i < |ls| ==> Sound(ls[i]) && CreatedBefore(ls[i].handler, next)
  }

  /** Creating more arrow functions keeps the invariant. */
  lemma ListenersOkLater(ls: seq<Listener>, next: nat, later: nat)
    requires ListenersOk(ls, next) && next <= later
    ensures ListenersOk(ls, later)
  {
    forall i | 0 <= i < |ls| ensures CreatedBefore(ls[i].handler, later) {
      assert CreatedBefore(ls[i].handler, next);
    }
  }

  /** `addEventListener`: registering the same function for the same target and event again does nothing. */
  function Register(ls: seq<Listener>, l: Listener): seq<Listener>
  {
    if l in ls then ls else ls + [l]
  }

  /** Registering adds the listener, keeps every earlier one, adds nothing else, and never duplicates. */
  lemma RegisterMembers(ls: seq<Listener>, l: Listener)
    ensures l in Register(ls, l)
    ensures forall x :: x in Register(ls, l) <==> x in ls || x == l
    ensures NoDuplicates(ls) ==> NoDuplicates(Register(ls, l))
  {
  }

  /** Registering a listener that fits the invariant keeps it. */
  lemma RegisterKeepsOk(ls: seq<Listener>, l: Listener, next: nat)
    requires ListenersOk(ls, next) && Sound(l) && CreatedBefore(l.handler, next)
    ensures ListenersOk(Register(ls, l), next)
  {
    RegisterMembers(ls, l);
  }

  /** Registering `news` one after another. */
  function RegisterAll(ls: seq<Listener>, news: seq<Listener>): seq<Listener>
  {
    if news == [] then ls else Register(RegisterAll(ls, news[..|news| - 1]), news[|news| - 1])
  }

  /** Registering two more listeners after a batch. */
  lemma RegisterAllTwoMore(ls: seq<Listener>, a: seq<Listener>, x: Listener, y: Listener)
    ensures RegisterAll(ls, a + [x, y]) == Register(Register(RegisterAll(ls, a), x), y)
  {
    assert (a + [x, y])[..|a| + 1] == a + [x];
    assert (a + [x])[..|a|] == a;
  }

  lemma {:induction false} RegisterAllMembers(ls: seq<Listener>, news: seq<Listener>)
    ensures forall x :: x in RegisterAll(ls, news) <==> x in ls || x in news
    ensures NoDuplicates(ls) ==> NoDuplicates(RegisterAll(ls, news))
  {
    if news != [] {
      var init := news[..|news| - 1];
      RegisterAllMembers(ls, init);
      RegisterMembers(RegisterAll(ls, init), news[|news| - 1]);
      assert news == init + [news[|news| - 1]];
    }
  }

  lemma {:induction false} RegisterAllAppend(ls: seq<Listener>, a: seq<Listener>, b: seq<Listener>)
    ensures RegisterAll(ls, a + b) == RegisterAll(RegisterAll(ls, a), b)
  {
    if b == [] {
      assert a + b == a;
    } else {
      var init := b[..|b| - 1];
      RegisterAllAppend(ls, a, init);
      assert (a + b)[..|a + b| - 1] == a + init;
    }
  }

  /** The two listeners the iframe loop adds to every iframe whose document it can reach. */
  function IframeListeners(iframes: seq<Iframe>): seq<Listener>
  {
    if iframes == [] then []
    else
      var f := iframes[|iframes| - 1];
      IframeListeners(iframes[..|iframes| - 1])
      + if f.accessible then [Listener(IframeDocument(f.frame), MouseUp, SharedHandler),
                              Listener(IframeDocument(f.frame), SelectionChange, SharedHandler)]
        else []
  }

  /**
   * The iframe loop reaches exactly the accessible iframes: a listener targets an iframe's
   * document iff that iframe is accessible, and every such listener runs `handleTextSelection`.
   */
  lemma {:induction false} IframeListenersExact(iframes: seq<Iframe>)
    ensures forall l :: l in IframeListeners(iframes) ==> l.target.IframeDocument? && l.handler == SharedHandler
    ensures forall d :: (exists l :: l in IframeListeners(iframes) && l.target == IframeDocument(d))
                        <==> (exists f :: f in iframes && f.accessible && f.frame == d)
  {
    if iframes != [] {
      var init := iframes[..|iframes| - 1];
      var f := iframes[|iframes| - 1];
      IframeListenersExact(init);
      var pre := IframeListeners(init);
      var added: seq<Listener> := if f.accessible then [Listener(IframeDocument(f.frame), MouseUp, SharedHandler),
                                         Listener(IframeDocument(f.frame), SelectionChange, SharedHandler)]
                   else [];
      assert IframeListeners(iframes) == pre + added;
      assert iframes == init + [f];
      forall d | exists l: Listener :: l in pre + added && l.target == IframeDocument(d)
        ensures exists g: Iframe :: g in iframes && g.accessible && g.frame == d
      {
        var l :| l in pre + added && l.target == IframeDocument(d);
        if l in pre {
          var g :| g in init && g.accessible && g.frame == d;
          assert g in iframes;
        } else {
          assert l in added;
          assert f in iframes;
        }
      }
      forall d | exists g: Iframe :: g in iframes && g.accessible && g.frame == d
        ensures exists l: Listener :: l in pre + added && l.target == IframeDocument(d)
      {
        var g :| g in iframes && g.accessible && g.frame == d;
        if g == f {
          assert added[0] in pre + added;
        } else {
          assert g in init;
          var l :| l in pre && l.target == IframeDocument(d);
          assert l in pre + added;
        }
      }
    }
  }

  /** The listeners `k` childList mutations attach to viewer root `root`, the first arrow function numbered `c`. */
  function ViewerListeners(root: nat, k: nat, c: nat): seq<Listener>
  {
    if k == 0 then []
    else ViewerListeners(root, k - 1, c)
         + [Listener(ViewerRoot(root), MouseUp, SharedHandler), Listener(ViewerRoot(root), KeyUp, ModifierKeyup(c + k - 1))]
  }

  /** Every childList mutation leaves its own keyup listener on the viewer root. */
  lemma {:induction false} ViewerListenersHold(root: nat, k: nat, c: nat)
    ensures forall j :: c <= j < c + k ==> Listener(ViewerRoot(root), KeyUp, ModifierKeyup(j)) in ViewerListeners(root, k, c)
    ensures k > 0 ==> Listener(ViewerRoot(root), MouseUp, SharedHandler) in ViewerListeners(root, k, c)
    ensures forall l :: l in ViewerListeners(root, k, c) ==> Sound(l) && CreatedBefore(l.handler, c + k)
  {
    if k > 0 {
      ViewerListenersHold(root, k - 1, c);
    }
  }

  /** One more childList record adds the shared `mouseup` listener and keyup function number `c + k`. */
  lemma ViewerStep(ls: seq<Listener>, root: nat, k: nat, c: nat)
    ensures RegisterAll(ls, ViewerListeners(root, k + 1, c))
            == Register(Register(RegisterAll(ls, ViewerListeners(root, k, c)), Listener(ViewerRoot(root), MouseUp, SharedHandler)),
                        Listener(ViewerRoot(root), KeyUp, ModifierKeyup(c + k)))
  {
    RegisterAllTwoMore(ls, ViewerListeners(root, k, c), Listener(ViewerRoot(root), MouseUp, SharedHandler),
                       Listener(ViewerRoot(root), KeyUp, ModifierKeyup(c + k)));
  }

  /** The number of childList records in a batch of mutation records. */
  function ChildListCount(mutations: seq<MutationKind>): nat
  {
    if mutations == [] then 0
    else ChildListCount(mutations[..|mutations| - 1]) + if mutations[|mutations| - 1] == ChildList then 1 else 0
  }

  lemma ChildListCountStep(mutations: seq<MutationKind>, i: nat)
    requires i < |mutations|
    ensures ChildListCount(mutations[..i + 1]) == ChildListCount(mutations[..i]) + if mutations[i] == ChildList then 1 else 0
  {
    assert mutations[..i + 1][..i] == mutations[..i] && mutations[..i + 1][i] == mutations[i];
  }

  /** The listeners one run of `checkForPDF` registers, its first arrow function numbered `c`. */
  function SetupListeners(pdf: bool, c: nat, iframes: seq<Iframe>): seq<Listener>
  {
    if pdf then
      [Listener(Document, MouseUp, SharedHandler),
       Listener(Document, KeyUp, ModifierKeyup(c)),
       Listener(Document, SelectionChange, SharedHandler)]
      + IframeListeners(iframes)
      + [Listener(Document, ContextMenu, DelayedSelection(c + 1))]
    else
      [Listener(Document, MouseUp, WebsiteMouseup(c))]
  }

  /**
   * After the PDF setup on a page whose iframes had no listeners, an iframe document has a
   * listener exactly when its iframe was accessible; nothing earlier is lost, and the
   * document has the shared `mouseup` and `selectionchange` listeners.
   */
  lemma PdfSetupCoverage(ls: seq<Listener>, c: nat, iframes: seq<Iframe>)
    requires forall l :: l in ls ==> !l.target.IframeDocument?
    ensures var after := RegisterAll(ls, SetupListeners(true, c, iframes));
      && (forall l :: l in ls ==> l in after)
      && Listener(Document, MouseUp, SharedHandler) in after
      && Listener(Document, SelectionChange, SharedHandler) in after
      && forall d :: (exists l :: l in after && l.target == IframeDocument(d))
                     <==> (exists f :: f in iframes && f.accessible && f.frame == d)
  {
    var news := SetupListeners(true, c, iframes);
    var after := RegisterAll(ls, news);
    RegisterAllMembers(ls, news);
    IframeListenersExact(iframes);
    forall d | exists l :: l in after && l.target == IframeDocument(d)
      ensures exists l :: l in IframeListeners(iframes) && l.target == IframeDocument(d)
    {
      var l :| l in after && l.target == IframeDocument(d);
      assert l in news;
    }
    forall d | exists l :: l in IframeListeners(iframes) && l.target == IframeDocument(d)
      ensures exists l :: l in after && l.target == IframeDocument(d)
    {
      var l :| l in IframeListeners(iframes) && l.target == IframeDocument(d);
      assert l in news;
    }
  }

  /** What one listener sends for an event, given the live selection. */
  function ListenerMessages(h: Handler, ev: Event, selection: string): seq<Message>
  {
    match h
    case SharedHandler => SelectionMessages(selection)
    case ModifierKeyup(_) => if ev.ctrlKey || ev.metaKey then SelectionMessages(selection) else []
    case WebsiteMouseup(_) => SelectionMessages(selection)
    case DelayedSelection(_) => []
  }

  /** The listeners of `ls` that an event of kind `kind` on `target` runs. */
  predicate Runs(l: Listener, target: Target, kind: EventType)
  {
    l.target == target && l.event == kind
  }

  /** The messages the listeners of `ls` send, in registration order, for one event on `target`. */
  function Fired(ls: seq<Listener>, target: Target, ev: Event, selection: string): seq<Message>
  {
    if ls == [] then []
    else
      var l := ls[|ls| - 1];
      Fired(ls[..|ls| - 1], target, ev, selection)
      + if Runs(l, target, ev.kind) then ListenerMessages(l.handler, ev, selection) else []
  }

  /** The `setTimeout` calls the listeners of `ls` make for one event on `target`. */
  function TimersSet(ls: seq<Listener>, target: Target, ev: Event): nat
  {
    if ls == [] then 0
    else
      var l := ls[|ls| - 1];
      TimersSet(ls[..|ls| - 1], target, ev) + if Runs(l, target, ev.kind) && l.handler.DelayedSelection? then 1 else 0
  }

  /** Dispatch's step: one more listener adds what it sends and the timer it sets. */
  lemma FiredStep(ls: seq<Listener>, i: nat, target: Target, ev: Event, selection: string)
    requires i < |ls|
    ensures Fired(ls[..i + 1], target, ev, selection) == Fired(ls[..i], target, ev, selection)
              + if Runs(ls[i], target, ev.kind) then ListenerMessages(ls[i].handler, ev, selection) else []
    ensures TimersSet(ls[..i + 1], target, ev) == TimersSet(ls[..i], target, ev)
              + if Runs(ls[i], target, ev.kind) && ls[i].handler.DelayedSelection? then 1 else 0
  {
    assert ls[..i + 1][..i] == ls[..i] && ls[..i + 1][i] == ls[i];
  }

  /** Every message an event causes carries the trimmed, non-empty selection. */
  lemma {:induction false} FiredCarriesTrimmedSelection(ls: seq<Listener>, target: Target, ev: Event, selection: string)
    ensures forall m :: m in Fired(ls, target, ev, selection) ==> m == TextSelected(Trim(selection)) && Trim(selection) != ""
  {
    if ls != [] {
      FiredCarriesTrimmedSelection(ls[..|ls| - 1], target, ev, selection);
      SelectionRule(selection);
    }
  }

  /** An empty or whitespace-only selection sends nothing, whatever the listeners. */
  lemma {:induction false} BlankSelectionSendsNothing(ls: seq<Listener>, target: Target, ev: Event, selection: string)
    requires AllWhitespace(selection)
    ensures Fired(ls, target, ev, selection) == []
  {
    if ls != [] {
      BlankSelectionSendsNothing(ls[..|ls| - 1], target, ev, selection);
      SelectionRule(selection);
    }
  }

  /** A key release without Ctrl or Meta held sends nothing, on the viewer root and on the document alike. */
  lemma {:induction false} KeyupNeedsModifier(ls: seq<Listener>, target: Target, ev: Event, selection: string)
    requires forall l :: l in ls ==> Sound(l)
    requires ev.kind == KeyUp && !ev.ctrlKey && !ev.metaKey
    ensures Fired(ls, target, ev, selection) == []
  {
    if ls != [] {
      KeyupNeedsModifier(ls[..|ls| - 1], target, ev, selection);
      assert Sound(ls[|ls| - 1]);
    }
  }

  /**
   * The nodes an event visits, in order: an event on the viewer root, an element of the page,
   * bubbles up to the document; the document and an iframe's own document are where it ends.
   */
  function Path(target: Target): seq<Target>
  {
    if target.ViewerRoot? then [target, Document] else [target]
  }

  /** The messages the listeners on each node of `path` send, node after node. */
  function Delivered(ls: seq<Listener>, path: seq<Target>, ev: Event, selection: string): seq<Message>
  {
    if path == [] then []
    else Delivered(ls, path[..|path| - 1], ev, selection) + Fired(ls, path[|path| - 1], ev, selection)
  }

  /** The timers the listeners on each node of `path` set. */
  function DeliveredTimers(ls: seq<Listener>, path: seq<Target>, ev: Event): nat
  {
    if path == [] then 0
    else DeliveredTimers(ls, path[..|path| - 1], ev) + TimersSet(ls, path[|path| - 1], ev)
  }

  /** Dispatch's step along the path: one more node adds what its listeners send and the timers they set. */
  lemma DeliveredStep(ls: seq<Listener>, path: seq<Target>, j: nat, ev: Event, selection: string)
    requires j < |path|
    ensures Delivered(ls, path[..j + 1], ev, selection) == Delivered(ls, path[..j], ev, selection) + Fired(ls, path[j], ev, selection)
    ensures DeliveredTimers(ls, path[..j + 1], ev) == DeliveredTimers(ls, path[..j], ev) + TimersSet(ls, path[j], ev)
  {
    assert path[..j + 1][..j] == path[..j] && path[..j + 1][j] == path[j];
  }

  /**
   * Along any path, every message carries the trimmed, non-empty selection; a blank selection
   * sends nothing; and a key release without Ctrl or Meta sends nothing.
   */
  lemma {:induction false} DeliveredRules(ls: seq<Listener>, path: seq<Target>, ev: Event, selection: string)
    ensures forall m :: m in Delivered(ls, path, ev, selection) ==> m == TextSelected(Trim(selection)) && Trim(selection) != ""
    ensures AllWhitespace(selection) ==> Delivered(ls, path, ev, selection) == []
    ensures (forall l :: l in ls ==> Sound(l)) && ev.kind == KeyUp && !ev.ctrlKey && !ev.metaKey ==>
            Delivered(ls, path, ev, selection) == []
  {
    if path != [] {
      var t := path[|path| - 1];
      DeliveredRules(ls, path[..|path| - 1], ev, selection);
      FiredCarriesTrimmedSelection(ls, t, ev, selection);
      if AllWhitespace(selection) {
        BlankSelectionSendsNothing(ls, t, ev, selection);
      }
      if (forall l :: l in ls ==> Sound(l)) && ev.kind == KeyUp && !ev.ctrlKey && !ev.metaKey {
        KeyupNeedsModifier(ls, t, ev, selection);
      }
    }
  }

  /** A listener that runs for the event sends at least what its own function sends. */
  lemma {:induction false} FiredIncludes(ls: seq<Listener>, l: Listener, target: Target, ev: Event, selection: string)
    requires l in ls && Runs(l, target, ev.kind)
    ensures |Fired(ls, target, ev, selection)| >= |ListenerMessages(l.handler, ev, selection)|
  {
    var last := ls[|ls| - 1];
    if last != l {
      assert l in ls[..|ls| - 1] by {
        assert ls == ls[..|ls| - 1] + [last];
      }
      FiredIncludes(ls[..|ls| - 1], l, target, ev, selection);
    }
  }

  /**
   * With the shared function on both the viewer root and the document, one mouse release inside
   * the viewer runs it twice, once at the root and once as the event bubbles to the document,
   * so a non-blank selection is sent at least twice.
   */
  lemma ViewerMouseupSendsTwice(ls: seq<Listener>, root: nat, selection: string)
    requires Listener(ViewerRoot(root), MouseUp, SharedHandler) in ls
    requires Listener(Document, MouseUp, SharedHandler) in ls
    requires !AllWhitespace(selection)
    ensures |Delivered(ls, Path(ViewerRoot(root)), Event(MouseUp, false, false), selection)| >= 2
  {
    var ev := Event(MouseUp, false, false);
    var path := Path(ViewerRoot(root));
    SelectionRule(selection);
    FiredIncludes(ls, Listener(ViewerRoot(root), MouseUp, SharedHandler), ViewerRoot(root), ev, selection);
    FiredIncludes(ls, Listener(Document, MouseUp, SharedHandler), Document, ev, selection);
    assert path[..1] == [ViewerRoot(root)] && path[..1][..0] == [];
    assert Delivered(ls, path[..1], ev, selection) == [] + Fired(ls, ViewerRoot(root), ev, selection);
    assert Delivered(ls, path, ev, selection) == Delivered(ls, path[..1], ev, selection) + Fired(ls, Document, ev, selection);
  }

  /** The listeners two runs of the PDF setup leave on a page without iframes, closures numbered from 0. */
  function TwiceSetUp(): seq<Listener>
  {
    [Listener(Document, MouseUp, SharedHandler), Listener(Document, KeyUp, ModifierKeyup(0)),
     Listener(Document, SelectionChange, SharedHandler), Listener(Document, ContextMenu, DelayedSelection(1)),
     Listener(Document, KeyUp, ModifierKeyup(2)), Listener(Document, ContextMenu, DelayedSelection(3))]
  }

  /** The first PDF set-up, on a page without listeners, registers its four listeners as they come. */
  lemma FirstSetUp()
    ensures RegisterAll([], SetupListeners(true, 0, [])) == TwiceSetUp()[..4]
  {
    var first := TwiceSetUp()[..4];
    assert SetupListeners(true, 0, []) == first;
    assert RegisterAll([], first[..1]) == first[..1] by {
      assert first[..1][..0] == [];
    }
    assert RegisterAll([], first[..2]) == first[..2] by {
      assert first[..2][..1] == first[..1];
    }
    assert RegisterAll([], first[..3]) == first[..3] by {
      assert first[..3][..2] == first[..2];
    }
    assert first[..3] == first[..|first| - 1];
  }

  /** The second run re-registers the shared function as a no-op and adds its two new arrow functions. */
  lemma RecheckListeners()
    ensures RegisterAll(RegisterAll([], SetupListeners(true, 0, [])), SetupListeners(true, 2, [])) == TwiceSetUp()
  {
    FirstSetUp();
    var first := TwiceSetUp()[..4];
    var second := [first[0], Listener(Document, KeyUp, ModifierKeyup(2)), first[2], Listener(Document, ContextMenu, DelayedSelection(3))];
    assert SetupListeners(true, 2, []) == second;
    assert RegisterAll(first, second[..1]) == first by {
      assert second[..1][..0] == [];
    }
    assert RegisterAll(first, second[..2]) == first + [second[1]] by {
      assert second[..2][..1] == second[..1];
    }
    assert RegisterAll(first, second[..3]) == first + [second[1]] by {
      assert second[..3][..2] == second[..2];
    }
    assert RegisterAll(first, second) == TwiceSetUp() by {
      assert second[..3] == second[..|second| - 1];
    }
  }

  lemma {:induction false} FiredConcat(a: seq<Listener>, b: seq<Listener>, target: Target, ev: Event, selection: string)
    ensures Fired(a + b, target, ev, selection) == Fired(a, target, ev, selection) + Fired(b, target, ev, selection)
  {
    if b == [] {
      assert a + b == a;
    } else {
      FiredConcat(a, b[..|b| - 1], target, ev, selection);
      assert (a + b)[..|a + b| - 1] == a + b[..|b| - 1];
      assert (a + b)[|a + b| - 1] == b[|b| - 1];
    }
  }

  lemma FiredOne(l: Listener, target: Target, ev: Event, selection: string)
    ensures Fired([l], target, ev, selection)
            == if Runs(l, target, ev.kind) then ListenerMessages(l.handler, ev, selection) else []
  {
    assert [l][..0] == [];
  }

  /** The six listeners, one `Fired` piece each. */
  lemma FiredTwiceSetUp(ev: Event, selection: string)
    ensures var ls := TwiceSetUp();
      Fired(ls, Document, ev, selection)
      == Fired([ls[0]], Document, ev, selection) + Fired([ls[1]], Document, ev, selection)
         + Fired([ls[2]], Document, ev, selection) + Fired([ls[3]], Document, ev, selection)
         + Fired([ls[4]], Document, ev, selection) + Fired([ls[5]], Document, ev, selection)
  {
    var ls := TwiceSetUp();
    var p1, p2, p3, p4, p5 := [ls[0]], [ls[0]] + [ls[1]], [ls[0]] + [ls[1]] + [ls[2]],
      [ls[0]] + [ls[1]] + [ls[2]] + [ls[3]], [ls[0]] + [ls[1]] + [ls[2]] + [ls[3]] + [ls[4]];
    assert ls == p5 + [ls[5]];
    FiredConcat(p1, [ls[1]], Document, ev, selection);
    FiredConcat(p2, [ls[2]], Document, ev, selection);
    FiredConcat(p3, [ls[3]], Document, ev, selection);
    FiredConcat(p4, [ls[4]], Document, ev, selection);
    FiredConcat(p5, [ls[5]], Document, ev, selection);
  }

  /** After the two set-ups a Ctrl-key release runs both `keyup` arrow functions. */
  lemma KeyupTwiceFires(selection: string)
    ensures Fired(TwiceSetUp(), Document, Event(KeyUp, true, false), selection)
            == SelectionMessages(selection) + SelectionMessages(selection)
  {
    var ls, keyup := TwiceSetUp(), Event(KeyUp, true, false);
    FiredTwiceSetUp(keyup, selection);
    FiredOne(ls[0], Document, keyup, selection);
    FiredOne(ls[1], Document, keyup, selection);
    FiredOne(ls[2], Document, keyup, selection);
    FiredOne(ls[3], Document, keyup, selection);
    FiredOne(ls[4], Document, keyup, selection);
    FiredOne(ls[5], Document, keyup, selection);
  }

  /** After the two set-ups a mouse release runs the one shared `mouseup` listener. */
  lemma MouseupOnceFires(selection: string)
    ensures Fired(TwiceSetUp(), Document, Event(MouseUp, false, false), selection) == SelectionMessages(selection)
  {
    var ls, mouseup := TwiceSetUp(), Event(MouseUp, false, false);
    FiredTwiceSetUp(mouseup, selection);
    FiredOne(ls[0], Document, mouseup, selection);
    FiredOne(ls[1], Document, mouseup, selection);
    FiredOne(ls[2], Document, mouseup, selection);
    FiredOne(ls[3], Document, mouseup, selection);
    FiredOne(ls[4], Document, mouseup, selection);
    FiredOne(ls[5], Document, mouseup, selection);
  }

  /**
   * The shared function is registered once however often the PDF setup runs, but every run
   * adds a new `keyup` arrow function: after two runs a Ctrl-key release sends the selection
   * twice while a mouse release sends it once.
   */
  lemma RecheckDoublesKeyupMessages(selection: string)
    requires !AllWhitespace(selection)
    ensures var ls := RegisterAll(RegisterAll([], SetupListeners(true, 0, [])), SetupListeners(true, 2, []));
      |Fired(ls, Document, Event(KeyUp, true, false), selection)| == 2
      && |Fired(ls, Document, Event(MouseUp, false, false), selection)| == 1
  {
    RecheckListeners();
    SelectionRule(selection);
    KeyupTwiceFires(selection);
    MouseupOnceFires(selection);
  }

  class ContentScript {
    /** The page address last seen by the URL watcher. */
    var lastUrl: string
    /** The registered listeners, in registration order. */
    var listeners: seq<Listener>
    /** The number of arrow-function listeners created so far. */
    var nextClosure: nat
    /** The viewer-watching MutationObservers `checkForPDF` has started. */
    var viewerObservers: nat
    /** The 100 ms timers set by the context-menu listener that have not fired yet. */
    var pendingSelectionTimers: nat
    /** The messages sent with `chrome.runtime.sendMessage`, in order. */
    var outbox: seq<Message>

    predicate Valid()
      reads this
    {
      ListenersOk(listeners, nextClosure)
    }

    /** The script as injected: `lastUrl` is the page address, nothing is registered yet. */
    constructor (href: string)
      ensures Valid()
      ensures lastUrl == href && listeners == [] && nextClosure == 0
      ensures viewerObservers == 0 && pendingSelectionTimers == 0 && outbox == []
    {
      lastUrl := href;
      listeners := [];
      nextClosure := 0;
      viewerObservers := 0;
      pendingSelectionTimers := 0;
      outbox := [];
    }

    method AddEventListener(target: Target, event: EventType, handler: Handler)
      requires Valid()
      requires Sound(Listener(target, event, handler)) && CreatedBefore(handler, nextClosure)
      modifies this
      ensures Valid()
      ensures listeners == Register(old(listeners), Listener(target, event, handler))
      ensures lastUrl == old(lastUrl) && nextClosure == old(nextClosure) && viewerObservers == old(viewerObservers)
      ensures pendingSelectionTimers == old(pendingSelectionTimers) && outbox == old(outbox)
    {
      RegisterKeepsOk(listeners, Listener(target, event, handler), nextClosure);
      listeners := Register(listeners, Listener(target, event, handler));
    }

    /** Creating an arrow function: it gets the next number. */
    method NewClosure() returns (c: nat)
      requires Valid()
      modifies this
      ensures Valid()
      ensures c == old(nextClosure) && nextClosure == c + 1
      ensures lastUrl == old(lastUrl) && listeners == old(listeners) && viewerObservers == old(viewerObservers)
      ensures pendingSelectionTimers == old(pendingSelectionTimers) && outbox == old(outbox)
    {
      ListenersOkLater(listeners, nextClosure, nextClosure + 1);
      c := nextClosure;
      nextClosure := nextClosure + 1;
    }

    /** `handleTextSelection`, given the live selection string. */
    method HandleTextSelection(selection: string)
      modifies this
      ensures outbox == old(outbox) + SelectionMessages(selection)
      ensures lastUrl == old(lastUrl) && listeners == old(listeners) && nextClosure == old(nextClosure)
      ensures viewerObservers == old(viewerObservers) && pendingSelectionTimers == old(pendingSelectionTimers)
    {
      var trimmed := Trim(selection);
      if |trimmed| > 0 {
        outbox := outbox + [TextSelected(trimmed)];
      }
    }

    /** The iframe loop: each iframe is tried; one whose document cannot be reached is skipped. */
    method AttachToIframes(iframes: seq<Iframe>)
      requires Valid()
      modifies this
      ensures Valid()
      ensures listeners == RegisterAll(old(listeners), IframeListeners(iframes))
      ensures lastUrl == old(lastUrl) && nextClosure == old(nextClosure) && viewerObservers == old(viewerObservers)
      ensures pendingSelectionTimers == old(pendingSelectionTimers) && outbox == old(outbox)
    {
      for i := 0 to |iframes|
        invariant Valid()
        invariant listeners == RegisterAll(old(listeners), IframeListeners(iframes[..i]))
        invariant lastUrl == old(lastUrl) && nextClosure == old(nextClosure) && viewerObservers == old(viewerObservers)
        invariant pendingSelectionTimers == old(pendingSelectionTimers) && outbox == old(outbox)
      {
        var f := iframes[i];
        assert iframes[..i + 1][..i] == iframes[..i] && iframes[..i + 1][i] == f;
        ghost var before := IframeListeners(iframes[..i]);
        if f.accessible {
          AddEventListener(IframeDocument(f.frame), MouseUp, SharedHandler);
          AddEventListener(IframeDocument(f.frame), SelectionChange, SharedHandler);
          RegisterAllTwoMore(old(listeners), before, Listener(IframeDocument(f.frame), MouseUp, SharedHandler),
                             Listener(IframeDocument(f.frame), SelectionChange, SharedHandler));
        } else {
          // the cross-origin access throws; the error is caught and the loop goes on
          assert IframeListeners(iframes[..i + 1]) == before;
        }
      }
      assert iframes[..|iframes|] == iframes;
    }

    /** The viewer root found: the shared `mouseup` listener and a new Ctrl/Meta `keyup` arrow function. */
    method AttachToViewer(root: nat)
      requires Valid()
      modifies this
      ensures Valid()
      ensures listeners == Register(Register(old(listeners), Listener(ViewerRoot(root), MouseUp, SharedHandler)),
                                    Listener(ViewerRoot(root), KeyUp, ModifierKeyup(old(nextClosure))))
      ensures nextClosure == old(nextClosure) + 1
      ensures lastUrl == old(lastUrl) && viewerObservers == old(viewerObservers)
      ensures pendingSelectionTimers == old(pendingSelectionTimers) && outbox == old(outbox)
    {
      AddEventListener(ViewerRoot(root), MouseUp, SharedHandler);
      var c := NewClosure();
      AddEventListener(ViewerRoot(root), KeyUp, ModifierKeyup(c));
    }

    /**
     * The listeners and closure counter after `n` childList records of one observer batch,
     * starting from `ls0` and `c0`: nothing changes when the page has no viewer root.
     */
    ghost predicate AfterViewerRecords(ls0: seq<Listener>, c0: nat, root: Option<nat>, n: nat)
      reads this
    {
      if root.Some? then listeners == RegisterAll(ls0, ViewerListeners(root.value, n, c0)) && nextClosure == c0 + n
      else listeners == ls0 && nextClosure == c0
    }

    /** The callback for one mutation record: a childList record re-attaches to the viewer root, if one is found. */
    method OnMutationRecord(kind: MutationKind, found: ViewerQuery, ghost ls0: seq<Listener>, ghost c0: nat, ghost n: nat)
      requires Valid() && AfterViewerRecords(ls0, c0, FindViewerRoot(found), n)
      modifies this
      ensures Valid()
      ensures AfterViewerRecords(ls0, c0, FindViewerRoot(found), if kind == ChildList then n + 1 else n)
      ensures lastUrl == old(lastUrl) && viewerObservers == old(viewerObservers)
      ensures pendingSelectionTimers == old(pendingSelectionTimers) && outbox == old(outbox)
    {
      if kind == ChildList {
        var viewer := FindViewerRoot(found);
        if viewer.Some? {
          AttachToViewer(viewer.value);
          ViewerStep(ls0, viewer.value, n, c0);
        }
      }
    }

    /**
     * The viewer-watching observer's callback: every record is handled in order, so each
     * childList record re-attaches to the viewer root when one is found.
     */
    method OnViewerMutations(mutations: seq<MutationKind>, found: ViewerQuery)
      requires Valid()
      modifies this
      ensures Valid()
      ensures AfterViewerRecords(old(listeners), old(nextClosure), FindViewerRoot(found), ChildListCount(mutations))
      ensures lastUrl == old(lastUrl) && viewerObservers == old(viewerObservers)
      ensures pendingSelectionTimers == old(pendingSelectionTimers) && outbox == old(outbox)
    {
      ghost var ls0, c0 := listeners, nextClosure;
      for i := 0 to |mutations|
        invariant Valid()
        invariant AfterViewerRecords(ls0, c0, FindViewerRoot(found), ChildListCount(mutations[..i]))
        invariant lastUrl == old(lastUrl) && viewerObservers == old(viewerObservers)
        invariant pendingSelectionTimers == old(pendingSelectionTimers) && outbox == old(outbox)
      {
        ChildListCountStep(mutations, i);
        OnMutationRecord(mutations[i], found, ls0, c0, ChildListCount(mutations[..i]));
      }
      assert mutations[..|mutations|] == mutations;
    }

    /** `setupWebsiteTextSelection`: one `mouseup` arrow function on the document. */
    method SetupWebsiteTextSelection()
      requires Valid()
      modifies this
      ensures Valid()
      ensures listeners == Register(old(listeners), Listener(Document, MouseUp, WebsiteMouseup(old(nextClosure))))
      ensures nextClosure == old(nextClosure) + 1
      ensures lastUrl == old(lastUrl) && viewerObservers == old(viewerObservers)
      ensures pendingSelectionTimers == old(pendingSelectionTimers) && outbox == old(outbox)
    {
      var c := NewClosure();
      AddEventListener(Document, MouseUp, WebsiteMouseup(c));
    }

    /** The document's listeners on a PDF: the shared `mouseup`, a new `keyup` arrow function, the shared `selectionchange`. */
    method AddDocumentListeners()
      requires Valid()
      modifies this
      ensures Valid()
      ensures listeners == RegisterAll(old(listeners), SetupListeners(true, old(nextClosure), [])[..3])
      ensures nextClosure == old(nextClosure) + 1
      ensures lastUrl == old(lastUrl) && viewerObservers == old(viewerObservers)
      ensures pendingSelectionTimers == old(pendingSelectionTimers) && outbox == old(outbox)
    {
      ghost var ls0, c0 := listeners, nextClosure;
      AddEventListener(Document, MouseUp, SharedHandler);
      var keyup := NewClosure();
      AddEventListener(Document, KeyUp, ModifierKeyup(keyup));
      AddEventListener(Document, SelectionChange, SharedHandler);
      ghost var head := SetupListeners(true, c0, [])[..3];
      assert head == [Listener(Document, MouseUp, SharedHandler), Listener(Document, KeyUp, ModifierKeyup(c0)),
                      Listener(Document, SelectionChange, SharedHandler)];
      assert RegisterAll(ls0, [head[0]]) == Register(ls0, head[0]) by {
        assert [head[0]][..0] == [];
      }
      RegisterAllTwoMore(ls0, [head[0]], head[1], head[2]);
      assert [head[0]] + [head[1], head[2]] == head;
    }

    /** The context-menu listener: a new arrow function that sets a 100 ms timer. */
    method AddContextMenuListener()
      requires Valid()
      modifies this
      ensures Valid()
      ensures listeners == Register(old(listeners), Listener(Document, ContextMenu, DelayedSelection(old(nextClosure))))
      ensures nextClosure == old(nextClosure) + 1
      ensures lastUrl == old(lastUrl) && viewerObservers == old(viewerObservers)
      ensures pendingSelectionTimers == old(pendingSelectionTimers) && outbox == old(outbox)
    {
      var menu := NewClosure();
      AddEventListener(Document, ContextMenu, DelayedSelection(menu));
    }

    /**
     * `checkForPDF`: a PDF gets a viewer observer, the document listeners, the iframe loop and
     * the context-menu listener; any other page gets the regular `mouseup` listener. Nothing
     * registered earlier is removed.
     */
    method CheckForPdf(contentType: string, href: string, iframes: seq<Iframe>)
      requires Valid()
      modifies this
      ensures Valid()
      ensures listeners == RegisterAll(old(listeners), SetupListeners(IsPdf(contentType, href), old(nextClosure), iframes))
      ensures nextClosure == old(nextClosure) + if IsPdf(contentType, href) then 2 else 1
      ensures viewerObservers == old(viewerObservers) + if IsPdf(contentType, href) then 1 else 0
      ensures lastUrl == old(lastUrl) && pendingSelectionTimers == old(pendingSelectionTimers) && outbox == old(outbox)
    {
      ghost var ls0, c0 := listeners, nextClosure;
      if IsPdf(contentType, href) {
        viewerObservers := viewerObservers + 1;
        AddDocumentListeners();
        ghost var head := SetupListeners(true, c0, [])[..3];
        AttachToIframes(iframes);
        RegisterAllAppend(ls0, head, IframeListeners(iframes));
        AddContextMenuListener();
        ghost var tail := [Listener(Document, ContextMenu, DelayedSelection(c0 + 1))];
        RegisterAllAppend(ls0, head + IframeListeners(iframes), tail);
        assert tail[..0] == [];
        assert SetupListeners(true, c0, iframes) == head + IframeListeners(iframes) + tail;
      } else {
        SetupWebsiteTextSelection();
        ghost var only := [Listener(Document, MouseUp, WebsiteMouseup(c0))];
        assert only[..0] == [];
      }
    }

    /**
     * The URL watcher's callback: `checkForPDF` runs again exactly when the address differs
     * from the last one seen, and the new address is remembered. A repeated notification for
     * the same address does nothing.
     */
    method OnDocumentMutation(href: string, contentType: string, iframes: seq<Iframe>) returns (reclassified: bool)
      requires Valid()
      modifies this
      ensures Valid()
      ensures reclassified <==> href != old(lastUrl)
      ensures lastUrl == href
      ensures reclassified ==>
        listeners == RegisterAll(old(listeners), SetupListeners(IsPdf(contentType, href), old(nextClosure), iframes))
        && nextClosure == old(nextClosure) + (if IsPdf(contentType, href) then 2 else 1)
        && viewerObservers == old(viewerObservers) + (if IsPdf(contentType, href) then 1 else 0)
      ensures !reclassified ==>
        (listeners == old(listeners) && nextClosure == old(nextClosure) && viewerObservers == old(viewerObservers))
      ensures pendingSelectionTimers == old(pendingSelectionTimers) && outbox == old(outbox)
    {
      reclassified := href != lastUrl;
      if reclassified {
        lastUrl := href;
        CheckForPdf(contentType, href, iframes);
      }
    }

    /** One listener function runs for an event: what it sends, and whether it sets a timer. */
    method RunListener(h: Handler, ev: Event, selection: string)
      modifies this
      ensures outbox == old(outbox) + ListenerMessages(h, ev, selection)
      ensures pendingSelectionTimers == old(pendingSelectionTimers) + if h.DelayedSelection? then 1 else 0
      ensures listeners == old(listeners) && lastUrl == old(lastUrl) && nextClosure == old(nextClosure)
      ensures viewerObservers == old(viewerObservers)
    {
      match h
      case SharedHandler =>
        HandleTextSelection(selection);
      case ModifierKeyup(_) =>
        if ev.ctrlKey || ev.metaKey {
          HandleTextSelection(selection);
        }
      case WebsiteMouseup(_) =>
        HandleTextSelection(selection);
      case DelayedSelection(_) =>
        pendingSelectionTimers := pendingSelectionTimers + 1;
    }

    /**
     * The event reaches node `target` of its path: the listeners registered there for its kind
     * run in registration order against the live selection; context-menu listeners set their timer.
     */
    method DispatchAt(target: Target, ev: Event, selection: string)
      requires Valid()
      modifies this
      ensures Valid()
      ensures outbox == old(outbox) + Fired(listeners, target, ev, selection)
      ensures pendingSelectionTimers == old(pendingSelectionTimers) + TimersSet(listeners, target, ev)
      ensures listeners == old(listeners) && lastUrl == old(lastUrl) && nextClosure == old(nextClosure)
      ensures viewerObservers == old(viewerObservers)
    {
      var ls := listeners;
      ghost var out0, timers0 := outbox, pendingSelectionTimers;
      for i := 0 to |ls|
        invariant listeners == ls && lastUrl == old(lastUrl) && nextClosure == old(nextClosure)
        invariant viewerObservers == old(viewerObservers)
        invariant outbox == out0 + Fired(ls[..i], target, ev, selection)
        invariant pendingSelectionTimers == timers0 + TimersSet(ls[..i], target, ev)
      {
        var l := ls[i];
        FiredStep(ls, i, target, ev, selection);
        if Runs(l, target, ev.kind) {
          RunListener(l.handler, ev, selection);
          assert out0 + Fired(ls[..i], target, ev, selection) + ListenerMessages(l.handler, ev, selection)
              == out0 + (Fired(ls[..i], target, ev, selection) + ListenerMessages(l.handler, ev, selection));
        } else {
          assert Fired(ls[..i], target, ev, selection) + [] == Fired(ls[..i], target, ev, selection);
        }
      }
      assert ls[..|ls|] == ls;
    }

    /**
     * One event on `target`: it visits each node of its propagation path in turn, and at each
     * node the listeners registered there run. `selection` is the selection of the script's own
     * window, which every listener reads, also for an event from an iframe document.
     */
    method Dispatch(target: Target, ev: Event, selection: string)
      requires Valid()
      modifies this
      ensures Valid()
      ensures outbox == old(outbox) + Delivered(listeners, Path(target), ev, selection)
      ensures pendingSelectionTimers == old(pendingSelectionTimers) + DeliveredTimers(listeners, Path(target), ev)
      ensures listeners == old(listeners) && lastUrl == old(lastUrl) && nextClosure == old(nextClosure)
      ensures viewerObservers == old(viewerObservers)
    {
      var path := Path(target);
      ghost var out0, timers0 := outbox, pendingSelectionTimers;
      for j := 0 to |path|
        invariant Valid() && listeners == old(listeners) && lastUrl == old(lastUrl) && nextClosure == old(nextClosure)
        invariant viewerObservers == old(viewerObservers)
        invariant outbox == out0 + Delivered(listeners, path[..j], ev, selection)
        invariant pendingSelectionTimers == timers0 + DeliveredTimers(listeners, path[..j], ev)
      {
        DeliveredStep(listeners, path, j, ev, selection);
        DispatchAt(path[j], ev, selection);
        assert out0 + Delivered(listeners, path[..j], ev, selection) + Fired(listeners, path[j], ev, selection)
            == out0 + (Delivered(listeners, path[..j], ev, selection) + Fired(listeners, path[j], ev, selection));
      }
      assert path[..|path|] == path;
    }

    /** A context-menu timer fires: `handleTextSelection` runs against the selection of that moment. */
    method FireSelectionTimer(selection: string)
      requires Valid() && pendingSelectionTimers > 0
      modifies this
      ensures Valid()
      ensures outbox == old(outbox) + SelectionMessages(selection)
      ensures pendingSelectionTimers == old(pendingSelectionTimers) - 1
      ensures listeners == old(listeners) && lastUrl == old(lastUrl) && nextClosure == old(nextClosure)
      ensures viewerObservers == old(viewerObservers)
    {
      pendingSelectionTimers := pendingSelectionTimers - 1;
      HandleTextSelection(selection);
    }
  }
}
