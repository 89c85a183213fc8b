/** The input-shape cache that keeps LEAVE_NOTIFY handling from looping.

    A shape request is skipped when the window's recorded shape is already the one asked for. The
    X server, its windows and its event queue are part of the state, next to a reference server that
    receives every request, skipped or not; `server` and `reference` map each existing window to the
    last shape applied to it since its creation. A window's destruction and the arrival of its notify
    event are separate steps, and window ids are recycled; a history tells the bearers of an id apart. */
module InputShape {
  import opened Collections

  type Window = nat
  type HandlerId = nat

  datatype Size = Size(width: int, height: int)

  const INVALID := Size(-1, -1)
  const EMPTY := Size(0, 0)
  const DOT := Size(1, 1)

  // A tray handler: the icon window, the container created for it (none before its X resources are
  // initialised), and whether the handler still claims them.
  datatype Handler = Handler(window: Window, container: Option<Window>, owned: bool)

  datatype Event = Leave(window: Window) | Destroyed(window: Window)

  // How many windows have borne an id, and how many had when the last request about it was sent.
  datatype History = History(births: map<Window, nat>, madeFor: map<Window, nat>)

  datatype State = State(
    cache: map<Window, Size>,
    handlers: map<HandlerId, Handler>,
    server: map<Window, Option<Size>>,
    reference: map<Window, Option<Size>>,
    events: seq<Event>,
    history: History)

  const INITIAL := State(map[], map[], map[], map[], [], History(map[], map[]))

  datatype Action =
    | ClientCreates(window: Window)
    | ClientDestroys(window: Window)
    | LeaveArrives(window: Window)
    | Dock(handler: HandlerId, window: Window)
    | Probe(window: Window)                  // a handler made and dropped because its process is shown already
    | InitResources(handler: HandlerId, container: Window)
    | Interact(handler: HandlerId)           // hover or click
    | Reset(handler: HandlerId)              // the delayed reset after a click
    | Drop(handler: HandlerId)               // the handler is unregistered and destroyed
    | HandleEvent(owner: HandlerId)          // the registry search stops at `owner`, if any handler owns the window

  predicate Owns(h: Handler, w: Window) {
    h.owned && (w == h.window || h.container == Some(w))
  }

  predicate Managed(handlers: map<HandlerId, Handler>, w: Window) {
    exists id <- handlers :: Owns(handlers[id], w)
  }

  predicate IsContainer(handlers: map<HandlerId, Handler>, w: Window) {
    exists id <- handlers :: handlers[id].container == Some(w)
  }

  predicate Enabled(s: State, a: Action) {
    match a
    case ClientCreates(w) => w !in s.server
    case ClientDestroys(w) => w in s.server && !IsContainer(s.handlers, w)
    case LeaveArrives(w) => w in s.server
    case Dock(id, w) => id !in s.handlers
    case Probe(w) => true
    case InitResources(id, c) => id in s.handlers && s.handlers[id].container.None? && c !in s.server
    case Interact(id) => id in s.handlers && s.handlers[id].container.Some?
    case Reset(id) => id in s.handlers && s.handlers[id].container.Some?
    case Drop(id) => id in s.handlers
    case HandleEvent(owner) =>
      && s.events != []
      && (Managed(s.handlers, s.events[0].window) ==> owner in s.handlers && Owns(s.handlers[owner], s.events[0].window))
  }

  function Applied(server: map<Window, Option<Size>>, w: Window, size: Size): map<Window, Option<Size>> {
    if w in server then server[w := Some(size)] else server
  }

  function Count(counts: map<Window, nat>, w: Window): nat {
    if w in counts then counts[w] else 0
  }

  /** One more window bears the id. */
  function Born(h: History, w: Window): History {
    h.(births := h.births[w := Count(h.births, w) + 1])
  }

  /** A request about the id's present bearer is sent. */
  function Sent(h: History, w: Window): History {
    h.(madeFor := h.madeFor[w := Count(h.births, w)])
  }

  /** A request is sent, and recorded, unless the record already says so. */
  function Shaped(s: State, w: Window, size: Size): State {
    var t := s.(reference := Applied(s.reference, w, size));
    if w in s.cache && s.cache[w] == size then t
    else t.(cache := s.cache[w := size], server := Applied(s.server, w, size), history := Sent(s.history, w))
  }

  function WindowsOf(h: Handler): set<Window> {
    {h.window} + if h.container.Some? then {h.container.value} else {}
  }

  function Forgotten(cache: map<Window, Size>, h: Handler): map<Window, Size> {
    cache - WindowsOf(h)
  }

  function Invalidated(s: State, id: HandlerId): State
    requires id in s.handlers
  {
    var h := s.handlers[id];
    if !h.owned then s
    else s.(handlers := s.handlers[id := h.(owned := false)], cache := Forgotten(s.cache, h))
  }

  function Dropped(s: State, id: HandlerId): State
    requires id in s.handlers
  {
    var h := s.handlers[id];
    var t := s.(handlers := s.handlers - {id}, cache := Forgotten(s.cache, h));
    if h.container.None? then t
    else
      t.(server := s.server - {h.container.value}, reference := s.reference - {h.container.value},
         events := s.events + [Destroyed(h.container.value)])
  }

  function ContainerCreated(s: State, id: HandlerId, c: Window): State
    requires id in s.handlers
  {
    s.(server := s.server[c := None], reference := s.reference[c := None], history := Born(s.history, c),
       handlers := s.handlers[id := s.handlers[id].(container := Some(c))])
  }

  function EventHandled(s: State, owner: HandlerId): State
    requires Enabled(s, HandleEvent(owner))
  {
    var e, t := s.events[0], s.(events := s.events[1..]);
    if !Managed(s.handlers, e.window) then t
    else if e.Leave? then Shaped(t, e.window, EMPTY)
    else Invalidated(t, owner)
  }

  function Step(s: State, a: Action): State
    requires Enabled(s, a)
  {
    match a
    case ClientCreates(w) =>
      s.(server := s.server[w := None], reference := s.reference[w := None], history := Born(s.history, w))
    case ClientDestroys(w) =>
      s.(server := s.server - {w}, reference := s.reference - {w}, events := s.events + [Destroyed(w)])
    case LeaveArrives(w) => s.(events := s.events + [Leave(w)])
    case Dock(id, w) => s.(handlers := s.handlers[id := Handler(w, None, true)])
    case Probe(w) => s.(cache := s.cache - {w})
    case InitResources(id, c) => Shaped(ContainerCreated(s, id, c), c, INVALID)
    case Interact(id) => Shaped(s, s.handlers[id].container.value, DOT)
    case Reset(id) => Shaped(s, s.handlers[id].container.value, EMPTY)
    case Drop(id) => Dropped(s, id)
    case HandleEvent(owner) => EventHandled(s, owner)
  }

  predicate IsRun(s: State, actions: seq<Action>)
    decreases |actions|
  {
    actions == [] || (Enabled(s, actions[0]) && IsRun(Step(s, actions[0]), actions[1..]))
  }

  function Run(s: State, actions: seq<Action>): State
    requires IsRun(s, actions)
    decreases |actions|
  {
    if actions == [] then s else Run(Step(s, actions[0]), actions[1..])
  }

  // ---------- the cache is exact ----------

  /** A record is the shape the window has, unless the window's destruction is still to be noticed. */
  predicate RecordsAreExact(cache: map<Window, Size>, server: map<Window, Option<Size>>, events: seq<Event>) {
    forall w <- cache :: Destroyed(w) in events || (w in server && server[w] == Some(cache[w]))
  }

  /** Only windows somebody will forget again are recorded, and windows of other clients are only
      ever shaped empty, by leave events. */
  predicate RecordsAreTracked(cache: map<Window, Size>, handlers: map<HandlerId, Handler>) {
    forall w <- cache :: IsContainer(handlers, w) || (Managed(handlers, w) && cache[w] == EMPTY)
  }

  predicate ContainersAreExact(handlers: map<HandlerId, Handler>, cache: map<Window, Size>, server: map<Window, Option<Size>>) {
    forall id <- handlers | handlers[id].container.Some? ::
      var c := handlers[id].container.value;
      c in server && (c in cache ==> server[c] == Some(cache[c]))
  }

  predicate ContainersDiffer(handlers: map<HandlerId, Handler>) {
    forall i, j | i in handlers && j in handlers && i != j ::
      handlers[i].container.Some? ==> handlers[i].container != handlers[j].container
  }

  /** A leave event about a window that is gone is followed by the window's destroy event. */
  predicate Ordered(events: seq<Event>, windows: set<Window>) {
    forall i | 0 <= i < |events| && events[i].Leave? ::
      events[i].window in windows || Destroyed(events[i].window) in events[i..]
  }

  predicate Inv(s: State) {
    && s.reference.Keys == s.server.Keys
    && RecordsAreExact(s.cache, s.server, s.events)
    && RecordsAreTracked(s.cache, s.handlers)
    && ContainersAreExact(s.handlers, s.cache, s.server)
    && ContainersDiffer(s.handlers)
    && Ordered(s.events, s.server.Keys)
  }

  lemma InitHolds()
    ensures Inv(INITIAL) && SameServers(INITIAL) && Knows(INITIAL)
  {
  }

  lemma ShapingKeepsRecords(s: State, w: Window, size: Size)
    requires RecordsAreExact(s.cache, s.server, s.events) && (w in s.server || Destroyed(w) in s.events)
    ensures var t := Shaped(s, w, size); RecordsAreExact(t.cache, t.server, t.events)
  {
  }

  lemma ShapingKeepsContainers(s: State, w: Window, size: Size)
    requires ContainersAreExact(s.handlers, s.cache, s.server)
    ensures var t := Shaped(s, w, size); ContainersAreExact(t.handlers, t.cache, t.server)
  {
  }

  lemma ShapingKeepsInv(s: State, w: Window, size: Size)
    requires Inv(s) && (w in s.server || Destroyed(w) in s.events)
    requires IsContainer(s.handlers, w) || (Managed(s.handlers, w) && size == EMPTY)
    ensures Inv(Shaped(s, w, size))
  {
    hide Ordered, Managed, IsContainer, ContainersDiffer, RecordsAreExact, ContainersAreExact;
    ShapingKeepsRecords(s, w, size);
    ShapingKeepsContainers(s, w, size);
    var t := Shaped(s, w, size);
    assert t.server.Keys == s.server.Keys;
    assert t.cache == s.cache[w := size];
  }

  /** Handlers that keep window, container and claim go on tracking what they track. */
  lemma TrackingIsKept(before: map<HandlerId, Handler>, after: map<HandlerId, Handler>, cache: map<Window, Size>,
                       lost: set<Window>)
    requires RecordsAreTracked(cache, before)
    requires forall id <- before ::
               || (id in after && after[id].window == before[id].window && after[id].owned == before[id].owned &&
                     (before[id].container.Some? ==> after[id].container == before[id].container))
               || (before[id].window in lost && (before[id].container.Some? ==> before[id].container.value in lost))
    ensures RecordsAreTracked(cache - lost, after)
  {
    forall v | v in cache - lost ensures IsContainer(after, v) || (Managed(after, v) && cache[v] == EMPTY) {
      if IsContainer(before, v) {
        var id :| id in before && before[id].container == Some(v);
        assert after[id].container == Some(v);
      } else {
        var id :| id in before && Owns(before[id], v);
        assert Owns(after[id], v);
      }
    }
  }

  /** Losing records keeps the invariant, as long as the windows of a handler that loses its claim lose theirs. */
  lemma ForgettingKeepsInv(s: State, id: HandlerId, h: Handler)
    requires Inv(s) && id in s.handlers && h == s.handlers[id].(owned := false)
    ensures Inv(s.(handlers := s.handlers[id := h], cache := Forgotten(s.cache, h)))
  {
    hide Ordered, Managed;
    TrackingIsKept(s.handlers, s.handlers[id := h], s.cache, WindowsOf(h));
  }

  lemma DroppingKeepsInv(s: State, id: HandlerId)
    requires Inv(s) && id in s.handlers
    ensures Inv(Dropped(s, id))
  {
    hide Ordered, Managed;
    var h := s.handlers[id];
    TrackingIsKept(s.handlers, s.handlers - {id}, s.cache, WindowsOf(h));
    if h.container.Some? {
      EventArrivalKeepsOrder(s.events, s.server.Keys, Destroyed(h.container.value));
      assert (s.server - {h.container.value}).Keys == s.server.Keys - {h.container.value};
    }
  }

  /** Appending an event keeps the order; a destroy event even makes up for the window's removal. */
  lemma EventArrivalKeepsOrder(events: seq<Event>, windows: set<Window>, e: Event)
    requires Ordered(events, windows) && (e.Leave? ==> e.window in windows)
    ensures Ordered(events + [e], if e.Destroyed? then windows - {e.window} else windows)
  {
    var later := events + [e];
    forall i | 0 <= i < |later| && later[i].Leave?
      ensures (later[i].window in windows && e != Destroyed(later[i].window)) || Destroyed(later[i].window) in later[i..]
    {
      if i < |events| {
        assert later[i..] == events[i..] + [e];
      }
    }
  }

  lemma ClientKeepsRecords(s: State, a: Action)
    requires Inv(s) && Enabled(s, a) && (a.ClientCreates? || a.ClientDestroys? || a.LeaveArrives?)
    ensures RecordsAreExact(Step(s, a).cache, Step(s, a).server, Step(s, a).events)
  {
    hide Ordered, Managed, IsContainer, RecordsAreTracked, ContainersAreExact, ContainersDiffer;
    assert forall e <- s.events :: e in Step(s, a).events;
  }

  lemma ClientKeepsInv(s: State, a: Action)
    requires Inv(s) && Enabled(s, a) && (a.ClientCreates? || a.ClientDestroys? || a.LeaveArrives?)
    ensures Inv(Step(s, a))
  {
    hide Managed, RecordsAreTracked, ContainersDiffer, RecordsAreExact, Ordered;
    ClientKeepsOrder(s, a);
    ClientKeepsRecords(s, a);
  }

  lemma ClientKeepsOrder(s: State, a: Action)
    requires Inv(s) && Enabled(s, a) && (a.ClientCreates? || a.ClientDestroys? || a.LeaveArrives?)
    ensures Ordered(Step(s, a).events, Step(s, a).server.Keys)
  {
    match a {
      case ClientDestroys(w) =>
        EventArrivalKeepsOrder(s.events, s.server.Keys, Destroyed(w));
        assert (s.server - {w}).Keys == s.server.Keys - {w};
      case LeaveArrives(w) => EventArrivalKeepsOrder(s.events, s.server.Keys, Leave(w));
      case ClientCreates(w) =>
    }
  }

  lemma DockingKeepsInv(s: State, id: HandlerId, w: Window)
    requires Inv(s) && id !in s.handlers
    ensures Inv(Step(s, Dock(id, w)))
  {
    hide Ordered, Managed, RecordsAreExact;
    TrackingIsKept(s.handlers, Step(s, Dock(id, w)).handlers, s.cache, {});
    assert s.cache - {} == s.cache;
  }

  lemma DroppingARecordKeepsInv(s: State, w: Window)
    requires Inv(s)
    ensures Inv(s.(cache := s.cache - {w}))
  {
    hide Ordered, Managed, ContainersDiffer;
  }

  /** A handler's container comes into being, before it is given a shape; a stale record of its id is left out. */
  function WithContainer(s: State, id: HandlerId, c: Window): State
    requires id in s.handlers
  {
    ContainerCreated(s, id, c).(cache := s.cache - {c})
  }

  lemma NewContainerKeepsContainers(s: State, id: HandlerId, c: Window)
    requires Enabled(s, InitResources(id, c))
    requires ContainersAreExact(s.handlers, s.cache, s.server) && ContainersDiffer(s.handlers)
    ensures var t := WithContainer(s, id, c); ContainersAreExact(t.handlers, t.cache, t.server) && ContainersDiffer(t.handlers)
  {
    hide Managed, IsContainer;
  }

  lemma NewContainerKeepsRecords(s: State, c: Window)
    requires RecordsAreExact(s.cache, s.server, s.events) && Ordered(s.events, s.server.Keys)
    ensures RecordsAreExact(s.cache - {c}, s.server[c := None], s.events)
    ensures Ordered(s.events, s.server[c := None].Keys)
  {
  }

  lemma NewContainerKeepsInv(s: State, id: HandlerId, c: Window)
    requires Inv(s) && Enabled(s, InitResources(id, c))
    ensures Inv(WithContainer(s, id, c)) && IsContainer(WithContainer(s, id, c).handlers, c)
  {
    var t := WithContainer(s, id, c);
    assert IsContainer(t.handlers, c) by {
      assert t.handlers[id].container == Some(c);
    }
    hide Managed, IsContainer, ContainersAreExact, ContainersDiffer, RecordsAreTracked, RecordsAreExact, Ordered;
    NewContainerKeepsContainers(s, id, c);
    NewContainerKeepsRecords(s, c);
    TrackingIsKept(s.handlers, t.handlers, s.cache, {c});
    assert t.server.Keys == s.server.Keys + {c};
  }

  /** If the id of a new container is still recorded, then as another client's window. */
  lemma NewContainerRecord(s: State, c: Window)
    requires Inv(s) && c !in s.server && c in s.cache
    ensures s.cache[c] == EMPTY
  {
    hide Ordered, RecordsAreExact, Managed;
    assert !IsContainer(s.handlers, c);
  }

  /** Whether or not the container's id is still recorded, its first shape is asked for and recorded. */
  lemma FirstShape(s: State, id: HandlerId, c: Window)
    requires id in s.handlers && (c in s.cache ==> s.cache[c] == EMPTY)
    ensures Shaped(ContainerCreated(s, id, c), c, INVALID) == Shaped(WithContainer(s, id, c), c, INVALID)
  {
    assert (s.cache - {c})[c := INVALID] == s.cache[c := INVALID];
  }

  lemma InitialisingKeepsInv(s: State, id: HandlerId, c: Window)
    requires Inv(s) && Enabled(s, InitResources(id, c))
    ensures Inv(Step(s, InitResources(id, c)))
  {
    if c in s.cache {
      NewContainerRecord(s, c);
    }
    hide Inv, Managed, IsContainer, Shaped, WithContainer;
    NewContainerKeepsInv(s, id, c);
    assert c in WithContainer(s, id, c).server by {
      ContainerExists(s, id, c);
    }
    ShapingKeepsInv(WithContainer(s, id, c), c, INVALID);
    FirstShape(s, id, c);
  }

  lemma ContainerExists(s: State, id: HandlerId, c: Window)
    requires id in s.handlers
    ensures c in WithContainer(s, id, c).server
  {
  }

  lemma TakingAnEventKeepsOrder(events: seq<Event>, windows: set<Window>)
    requires events != [] && Ordered(events, windows)
    ensures Ordered(events[1..], windows)
    ensures events[0].Leave? ==> events[0].window in windows || Destroyed(events[0].window) in events[1..]
  {
    var rest := events[1..];
    forall i | 0 <= i < |rest| && rest[i].Leave? ensures rest[i].window in windows || Destroyed(rest[i].window) in rest[i..] {
      assert events[i + 1..] == rest[i..] && rest[i] == events[i + 1];
    }
  }

  lemma TakingAnEventKeepsRecords(events: seq<Event>, cache: map<Window, Size>, handlers: map<HandlerId, Handler>,
                                  server: map<Window, Option<Size>>)
    requires events != [] && RecordsAreExact(cache, server, events) && ContainersAreExact(handlers, cache, server)
    requires events[0].Destroyed? ==> events[0].window !in cache || IsContainer(handlers, events[0].window)
    ensures RecordsAreExact(cache, server, events[1..])
  {
    forall w <- cache ensures Destroyed(w) in events[1..] || (w in server && server[w] == Some(cache[w])) {
      if Destroyed(w) in events {
        if events[0] == Destroyed(w) {
          var id :| id in handlers && handlers[id].container == Some(w);
        } else {
          assert events == [events[0]] + events[1..];
        }
      }
    }
  }

  /** Taking an event other than the destroy event of a recorded window breaks nothing. */
  lemma TakingKeepsInv(s: State)
    requires Inv(s) && s.events != []
    requires s.events[0].Destroyed? ==> s.events[0].window !in s.cache || IsContainer(s.handlers, s.events[0].window)
    ensures Inv(s.(events := s.events[1..]))
  {
    hide Ordered, Managed, IsContainer, RecordsAreExact, ContainersAreExact, RecordsAreTracked, ContainersDiffer;
    TakingAnEventKeepsOrder(s.events, s.server.Keys);
    TakingAnEventKeepsRecords(s.events, s.cache, s.handlers, s.server);
  }

  lemma HandlingLeaveKeepsInv(s: State, owner: HandlerId)
    requires Inv(s) && Enabled(s, HandleEvent(owner)) && s.events[0].Leave?
    ensures Inv(Step(s, HandleEvent(owner)))
  {
    var w, t := s.events[0].window, s.(events := s.events[1..]);
    hide Managed, IsContainer, RecordsAreExact, ContainersAreExact, RecordsAreTracked, ContainersDiffer;
    TakingAnEventKeepsOrder(s.events, s.server.Keys);
    TakingKeepsInv(s);
    hide Inv;
    if Managed(s.handlers, w) {
      ShapingKeepsInv(t, w, EMPTY);
    }
  }

  lemma ForgettingTwice(cache: map<Window, Size>, h: Handler, w: Window)
    requires w in WindowsOf(h)
    ensures Forgotten(cache - {w}, h.(owned := false)) == Forgotten(cache, h)
  {
  }

  /** With the record of the destroyed window out of the way its event is harmless, and the owner
      drops that record. */
  lemma HandlingManagedDestroyKeepsInv(s: State, owner: HandlerId)
    requires Inv(s) && s.events != [] && s.events[0].Destroyed?
    requires owner in s.handlers && Owns(s.handlers[owner], s.events[0].window)
    ensures Inv(Invalidated(s.(events := s.events[1..]), owner))
  {
    hide Inv, Managed, Forgotten;
    var w, h := s.events[0].window, s.handlers[owner];
    var u := s.(cache := s.cache - {w});
    DroppingARecordKeepsInv(s, w);
    TakingKeepsInv(u);
    var v := u.(events := s.events[1..]);
    ForgettingKeepsInv(v, owner, h.(owned := false));
    ForgettingTwice(s.cache, h, w);
    assert v.(handlers := s.handlers[owner := h.(owned := false)], cache := Forgotten(v.cache, h.(owned := false)))
        == Invalidated(s.(events := s.events[1..]), owner);
  }

  lemma UnmanagedWindowsAreNotShaped(s: State, w: Window)
    requires Inv(s) && !Managed(s.handlers, w)
    ensures w !in s.cache || IsContainer(s.handlers, w)
  {
    hide Managed, IsContainer, Ordered, RecordsAreExact, ContainersAreExact, ContainersDiffer;
  }

  lemma HandlingDestroyKeepsInv(s: State, owner: HandlerId)
    requires Inv(s) && Enabled(s, HandleEvent(owner)) && s.events[0].Destroyed?
    ensures Inv(Step(s, HandleEvent(owner)))
  {
    hide Inv, Managed, IsContainer, Owns, Invalidated;
    if Managed(s.handlers, s.events[0].window) {
      HandlingManagedDestroyKeepsInv(s, owner);
    } else {
      UnmanagedWindowsAreNotShaped(s, s.events[0].window);
      TakingKeepsInv(s);
    }
  }

  lemma StepKeepsInv(s: State, a: Action)
    requires Inv(s) && Enabled(s, a)
    ensures Inv(Step(s, a))
  {
    match a {
      case InitResources(id, c) => InitialisingKeepsInv(s, id, c);
      case Interact(id) => ShapingKeepsInv(s, s.handlers[id].container.value, DOT);
      case Reset(id) => ShapingKeepsInv(s, s.handlers[id].container.value, EMPTY);
      case Drop(id) => DroppingKeepsInv(s, id);
      case HandleEvent(owner) =>
        if s.events[0].Leave? {
          HandlingLeaveKeepsInv(s, owner);
        } else {
          HandlingDestroyKeepsInv(s, owner);
        }
      case Dock(id, w) => DockingKeepsInv(s, id, w);
      case Probe(w) => DroppingARecordKeepsInv(s, w);
      case _ => ClientKeepsInv(s, a);
    }
  }

  /** Over every run, with windows destroyed, recycled and re-docked at any time: a recorded size is
      the shape the window has, unless its destroy event has not been handled yet. */
  lemma {:induction false} RunKeepsInv(s: State, actions: seq<Action>)
    requires Inv(s) && IsRun(s, actions)
    ensures Inv(Run(s, actions))
    decreases |actions|
  {
    if actions != [] {
      StepKeepsInv(s, actions[0]);
      RunKeepsInv(Step(s, actions[0]), actions[1..]);
    }
  }

  /** After every run from the start a recorded size is the shape the window has, unless a destroy event
      of a bearer of its id is still queued. */
  lemma RecordsStayExact(actions: seq<Action>, w: Window)
    requires IsRun(INITIAL, actions)
    ensures var t := Run(INITIAL, actions);
            w in t.cache && Destroyed(w) !in t.events ==> w in t.server && t.server[w] == Some(t.cache[w])
  {
    InitHolds();
    RunKeepsInv(INITIAL, actions);
  }

  // ---------- what one operation asks for and leaves behind ----------

  /** The shape an action asks for: none yet for a new container, one pixel under the pointer, and nothing
      for a container that is reset or a managed window that is left. */
  function AskedShape(s: State, a: Action): Option<(Window, Size)>
    requires Enabled(s, a)
  {
    match a
    case InitResources(_, c) => Some((c, Size(-1, -1)))
    case Interact(id) => Some((s.handlers[id].container.value, Size(1, 1)))
    case Reset(id) => Some((s.handlers[id].container.value, Size(0, 0)))
    case HandleEvent(_) =>
      if s.events[0].Leave? && Managed(s.handlers, s.events[0].window) then Some((s.events[0].window, Size(0, 0))) else None
    case _ => None
  }

  /** The handler whose windows an action forgets: one that goes, or that owns a destroyed window. */
  function Forgets(s: State, a: Action): Option<Handler>
    requires Enabled(s, a)
  {
    match a
    case Drop(id) => Some(s.handlers[id])
    case HandleEvent(owner) =>
      if s.events[0].Destroyed? && Managed(s.handlers, s.events[0].window) then Some(s.handlers[owner]) else None
    case _ => None
  }

  lemma ShapingRecords(s: State, w: Window, size: Size, v: Window)
    ensures var t := Shaped(s, w, size);
            && (v in t.cache <==> v == w || v in s.cache)
            && t.cache[w] == size && (v != w && v in s.cache ==> t.cache[v] == s.cache[v])
            && t.handlers == s.handlers && t.events == s.events
            && t.server.Keys == s.server.Keys && t.reference.Keys == s.reference.Keys
            && (v != w && v in s.server ==> t.server[v] == s.server[v])
            && (w in s.reference ==> t.reference[w] == Some(size))
  {
  }

  /** After an action the records hold the shape it asked for and what they held before, without the
      windows it forgets; the shape asked for is the last one the reference server knows of; and no other
      window's shape changes. */
  lemma RecordsFollowRequests(s: State, a: Action, v: Window)
    requires Inv(s) && Enabled(s, a)
    ensures var t, asked, gone := Step(s, a), AskedShape(s, a), Forgets(s, a);
            && (v in t.cache <==>
                  || (asked.Some? && v == asked.value.0)
                  || (v in s.cache && a != Probe(v) &&
                        !(gone.Some? && (v == gone.value.window || gone.value.container == Some(v)))))
            && (v in t.cache ==> t.cache[v] == if asked.Some? && v == asked.value.0 then asked.value.1 else s.cache[v])
            && (asked.Some? && v == asked.value.0 && v in t.reference ==> t.reference[v] == Some(asked.value.1))
            && (!(asked.Some? && v == asked.value.0) && v in s.server && v in t.server ==> t.server[v] == s.server[v])
  {
    hide Inv, Ordered, Shaped;
    match a {
      case InitResources(id, c) => ShapingRecords(ContainerCreated(s, id, c), c, INVALID, v);
      case Interact(id) => ShapingRecords(s, s.handlers[id].container.value, DOT, v);
      case Reset(id) => ShapingRecords(s, s.handlers[id].container.value, EMPTY, v);
      case HandleEvent(_) => ShapingRecords(s.(events := s.events[1..]), s.events[0].window, EMPTY, v);
      case _ =>
    }
  }

  /** A container really gets the shape asked for. */
  lemma ContainersAreShaped(s: State, a: Action)
    requires Inv(s) && Enabled(s, a) && (a.InitResources? || a.Interact? || a.Reset?)
    ensures var t, asked := Step(s, a), AskedShape(s, a).value;
            asked.0 in t.server && t.server[asked.0] == Some(asked.1)
  {
    var asked, id, t := AskedShape(s, a).value, a.handler, Step(s, a);
    RecordsFollowRequests(s, a, asked.0);
    StepKeepsInv(s, a);
    assert t.handlers[id].container == Some(asked.0) by {
      hide Inv;
      match a {
        case InitResources(_, c) => ShapingRecords(ContainerCreated(s, id, c), c, INVALID, c);
        case Interact(_) => ShapingRecords(s, asked.0, DOT, asked.0);
        case Reset(_) => ShapingRecords(s, asked.0, EMPTY, asked.0);
      }
    }
    assert ContainersAreExact(t.handlers, t.cache, t.server);
  }

  /** A leave event of a window that a claiming handler docked or made shapes it empty; a destroy event of
      it makes such a handler give up and forgets the window; and events of other windows do nothing. */
  lemma EventsAreForOwners(s: State, owner: HandlerId)
    requires Enabled(s, HandleEvent(owner))
    ensures var t, e := Step(s, HandleEvent(owner)), s.events[0];
            if exists id <- s.handlers ::
                 s.handlers[id].owned && (s.handlers[id].window == e.window || s.handlers[id].container == Some(e.window))
            then
              && owner in s.handlers && s.handlers[owner].owned
              && (s.handlers[owner].window == e.window || s.handlers[owner].container == Some(e.window))
              && (e.Leave? ==> e.window in t.cache && t.cache[e.window] == Size(0, 0) && t.handlers == s.handlers)
              && (e.Leave? && e.window in s.reference ==> t.reference[e.window] == Some(Size(0, 0)))
              && (e.Destroyed? ==> e.window !in t.cache && owner in t.handlers && !t.handlers[owner].owned)
            else t == s.(events := s.events[1..])
  {
    var e := s.events[0];
    if exists id <- s.handlers ::
         s.handlers[id].owned && (s.handlers[id].window == e.window || s.handlers[id].container == Some(e.window)) {
      var id :| id in s.handlers && s.handlers[id].owned &&
                (s.handlers[id].window == e.window || s.handlers[id].container == Some(e.window));
      assert Owns(s.handlers[id], e.window);
      ShapingRecords(s.(events := s.events[1..]), e.window, EMPTY, e.window);
    }
    hide Shaped;
  }

  /** What an action makes of one handler: it comes with its dock request and goes with its removal, gets
      its container once, and gives up when a window it owns is destroyed. */
  function HandlerAfter(s: State, a: Action, id: HandlerId): Option<Handler>
    requires Enabled(s, a)
  {
    var before := if id in s.handlers then Some(s.handlers[id]) else None;
    match a
    case Dock(docked, w) => if id == docked then Some(Handler(w, None, true)) else before
    case Drop(dropped) => if id == dropped then None else before
    case InitResources(owner, c) =>
      if id == owner then Some(Handler(s.handlers[id].window, Some(c), s.handlers[id].owned)) else before
    case HandleEvent(owner) =>
      if s.events[0].Destroyed? && Managed(s.handlers, s.events[0].window) && id == owner
      then Some(Handler(s.handlers[id].window, s.handlers[id].container, false)) else before
    case _ => before
  }

  lemma HandlersFollow(s: State, a: Action, id: HandlerId)
    requires Enabled(s, a)
    ensures var t := Step(s, a);
            (if id in t.handlers then Some(t.handlers[id]) else None) == HandlerAfter(s, a, id)
  {
    hide Shaped;
    match a {
      case InitResources(h, c) => ShapingRecords(ContainerCreated(s, h, c), c, INVALID, c);
      case Interact(h) => ShapingRecords(s, s.handlers[h].container.value, DOT, 0);
      case Reset(h) => ShapingRecords(s, s.handlers[h].container.value, EMPTY, 0);
      case HandleEvent(_) => ShapingRecords(s.(events := s.events[1..]), s.events[0].window, EMPTY, 0);
      case _ =>
    }
  }

  /** Windows exist from their creation to their destruction, and each destruction is announced. */
  lemma WindowsAndEventsFollow(s: State, a: Action)
    requires Inv(s) && Enabled(s, a)
    ensures var t := Step(s, a);
            && t.server.Keys == s.server.Keys
                 + (if a.ClientCreates? then {a.window} else if a.InitResources? then {a.container} else {})
                 - (if a.ClientDestroys? then {a.window}
                    else if a.Drop? && s.handlers[a.handler].container.Some? then {s.handlers[a.handler].container.value} else {})
            && t.events == (if a.HandleEvent? then s.events[1..] else s.events)
                 + (if a.LeaveArrives? then [Leave(a.window)] else if a.ClientDestroys? then [Destroyed(a.window)]
                    else if a.Drop? && s.handlers[a.handler].container.Some?
                    then [Destroyed(s.handlers[a.handler].container.value)] else [])
  {
    hide Inv, Shaped;
    match a {
      case InitResources(h, c) => ShapingRecords(ContainerCreated(s, h, c), c, INVALID, c);
      case Interact(h) => ShapingRecords(s, s.handlers[h].container.value, DOT, 0);
      case Reset(h) => ShapingRecords(s, s.handlers[h].container.value, EMPTY, 0);
      case HandleEvent(_) => ShapingRecords(s.(events := s.events[1..]), s.events[0].window, EMPTY, 0);
      case _ =>
    }
  }

  // ---------- late reuse suffices ----------

  /** A window id is not recycled while the destroy event of its last bearer is still queued. */
  predicate ReusesLate(s: State, a: Action) {
    match a
    case ClientCreates(w) => Destroyed(w) !in s.events
    case InitResources(_, c) => Destroyed(c) !in s.events
    case _ => true
  }

  predicate AlwaysReusesLate(s: State, actions: seq<Action>)
    requires IsRun(s, actions)
    decreases |actions|
  {
    actions == [] || (ReusesLate(s, actions[0]) && AlwaysReusesLate(Step(s, actions[0]), actions[1..]))
  }

  predicate SameServers(s: State) {
    && s.server == s.reference
    && (forall e <- s.events | e.Destroyed? :: e.window !in s.server)
  }

  lemma ShapingKeepsServers(s: State, w: Window, size: Size)
    requires Inv(s) && SameServers(s)
    ensures SameServers(Shaped(s, w, size))
  {
  }

  lemma TakingKeepsServers(s: State)
    requires SameServers(s) && s.events != []
    ensures SameServers(s.(events := s.events[1..]))
  {
    assert forall e <- s.events[1..] :: e in s.events;
  }

  lemma LeaveKeepsServers(s: State, owner: HandlerId)
    requires Inv(s) && SameServers(s) && Enabled(s, HandleEvent(owner)) && s.events[0].Leave?
    ensures SameServers(Step(s, HandleEvent(owner)))
  {
    hide Inv, SameServers, Managed, Owns, Shaped;
    var t, w := s.(events := s.events[1..]), s.events[0].window;
    TakingKeepsInv(s);
    TakingKeepsServers(s);
    ShapingKeepsServers(t, w, EMPTY);
  }

  lemma InitialisingKeepsServers(s: State, id: HandlerId, c: Window)
    requires Inv(s) && SameServers(s) && Enabled(s, InitResources(id, c)) && Destroyed(c) !in s.events
    ensures SameServers(Step(s, InitResources(id, c)))
  {
    if c in s.cache {
      NewContainerRecord(s, c);
    }
    hide Inv, Enabled;
  }

  lemma DestroyKeepsServers(s: State, owner: HandlerId)
    requires SameServers(s) && Enabled(s, HandleEvent(owner)) && s.events[0].Destroyed?
    ensures SameServers(Step(s, HandleEvent(owner)))
  {
    hide Managed, Owns, Forgotten;
    TakingKeepsServers(s);
  }

  lemma StepKeepsServers(s: State, a: Action)
    requires Inv(s) && SameServers(s) && Enabled(s, a) && ReusesLate(s, a)
    ensures SameServers(Step(s, a))
  {
    match a {
      case InitResources(id, c) => InitialisingKeepsServers(s, id, c);
      case Interact(id) => ShapingKeepsServers(s, s.handlers[id].container.value, DOT);
      case Reset(id) => ShapingKeepsServers(s, s.handlers[id].container.value, EMPTY);
      case HandleEvent(owner) =>
        if s.events[0].Leave? {
          LeaveKeepsServers(s, owner);
        } else {
          DestroyKeepsServers(s, owner);
        }
      case _ => hide Inv, Managed, IsContainer;
    }
  }

  /** If ids are recycled late, guarded requests have the same effect as sending every request: after
      every run the server is where it would be if no request had been skipped. */
  lemma {:induction false} GuardRefinesAlwaysSending(s: State, actions: seq<Action>)
    requires Inv(s) && SameServers(s) && IsRun(s, actions) && AlwaysReusesLate(s, actions)
    ensures Run(s, actions).server == Run(s, actions).reference
    decreases |actions|
  {
    if actions != [] {
      StepKeepsInv(s, actions[0]);
      StepKeepsServers(s, actions[0]);
      GuardRefinesAlwaysSending(Step(s, actions[0]), actions[1..]);
    }
  }

  // ---------- exactly when skipping is sound ----------

  predicate MadeForBearer(h: History, w: Window) {
    Count(h.madeFor, w) == Count(h.births, w)
  }

  /** A record made for the present bearer of its id is the bearer's shape; the bearer of an id whose
      record was made for an earlier one has not been given a shape yet. */
  predicate RecordsKnowBearers(cache: map<Window, Size>, server: map<Window, Option<Size>>, h: History) {
    forall w <- cache ::
      && Count(h.madeFor, w) <= Count(h.births, w)
      && (w in server ==> server[w] == if MadeForBearer(h, w) then Some(cache[w]) else None)
  }

  predicate Knows(s: State) {
    RecordsKnowBearers(s.cache, s.server, s.history)
  }

  lemma ShapingKeepsKnowing(s: State, w: Window, size: Size)
    requires Knows(s)
    ensures Knows(Shaped(s, w, size))
  {
  }

  lemma BirthKeepsKnowing(s: State, t: State, w: Window)
    requires Knows(s) && t.cache == s.cache && t.server == s.server[w := None] && t.history == Born(s.history, w)
    ensures Knows(t)
  {
  }

  lemma ForgettingKeepsKnowing(s: State, t: State, lost: set<Window>, gone: set<Window>)
    requires Knows(s) && t.cache == s.cache - lost && t.server == s.server - gone && t.history == s.history
    ensures Knows(t)
  {
  }

  lemma StepKeepsKnowing(s: State, a: Action)
    requires Knows(s) && Enabled(s, a)
    ensures Knows(Step(s, a))
  {
    var t := Step(s, a);
    hide Knows, Managed, Owns;
    match Request(s, a) {
      case Some(r) =>
        RequestIsStep(s, a);
        if a.InitResources? {
          BirthKeepsKnowing(s, r.before, a.container);
        } else {
          ForgettingKeepsKnowing(s, r.before, {}, {});
        }
        ShapingKeepsKnowing(r.before, r.window, r.size);
      case None =>
        if a.ClientCreates? {
          BirthKeepsKnowing(s, t, a.window);
        } else {
          var lost := s.cache.Keys - t.cache.Keys;
          var gone := s.server.Keys - t.server.Keys;
          assert t.cache == s.cache - lost && t.server == s.server - gone;
          ForgettingKeepsKnowing(s, t, lost, gone);
        }
    }
  }

  lemma {:induction false} RunKeepsKnowing(s: State, actions: seq<Action>)
    requires Knows(s) && IsRun(s, actions)
    ensures Knows(Run(s, actions))
    decreases |actions|
  {
    if actions != [] {
      StepKeepsKnowing(s, actions[0]);
      RunKeepsKnowing(Step(s, actions[0]), actions[1..]);
    }
  }

  /** After every run: the record of a window that exists is its shape exactly if it was made for that
      window, and not for an earlier bearer of its id. */
  lemma RecordIsExactIff(actions: seq<Action>, w: Window)
    requires IsRun(INITIAL, actions)
    ensures var t := Run(INITIAL, actions);
            w in t.cache && w in t.server ==> (t.server[w] == Some(t.cache[w]) <==> MadeForBearer(t.history, w))
  {
    RunKeepsKnowing(INITIAL, actions);
  }

  /** The request is skipped on a record made for an earlier bearer of the id of a window that exists. */
  predicate IsStaleSkip(s: State, w: Window, size: Size) {
    w in s.cache && s.cache[w] == size && w in s.server && !MadeForBearer(s.history, w)
  }

  /** A request makes a difference to sending always exactly when it is skipped on a record made for an
      earlier bearer. */
  lemma SkippingIsSoundIff(s: State, w: Window, size: Size)
    requires Knows(s) && s.server == s.reference
    ensures var t := Shaped(s, w, size); t.server == t.reference <==> !IsStaleSkip(s, w, size)
  {
    var t := Shaped(s, w, size);
    if w in s.cache && s.cache[w] == size && w in s.server {
      if MadeForBearer(s.history, w) {
        assert s.server[w := Some(size)] == s.server;
      } else {
        assert t.server[w] != t.reference[w];
      }
    }
  }

  // The shape request of a step: the state it is made in, the window and the size.
  datatype ShapeRequest = ShapeRequest(before: State, window: Window, size: Size)

  function Request(s: State, a: Action): Option<ShapeRequest>
    requires Enabled(s, a)
  {
    match a
    case InitResources(id, c) => Some(ShapeRequest(ContainerCreated(s, id, c), c, INVALID))
    case Interact(id) => Some(ShapeRequest(s, s.handlers[id].container.value, DOT))
    case Reset(id) => Some(ShapeRequest(s, s.handlers[id].container.value, EMPTY))
    case HandleEvent(_) =>
      if s.events[0].Leave? && Managed(s.handlers, s.events[0].window)
      then Some(ShapeRequest(s.(events := s.events[1..]), s.events[0].window, EMPTY)) else None
    case _ => None
  }

  lemma RequestIsStep(s: State, a: Action)
    requires Enabled(s, a) && Request(s, a).Some?
    ensures var r := Request(s, a).value;
            && Step(s, a) == Shaped(r.before, r.window, r.size)
            && r.before.cache == s.cache
            && (s.server == s.reference ==> r.before.server == r.before.reference)
            && (!a.InitResources? ==> r.before.server == s.server && r.before.history == s.history)
  {
    hide Managed, Owns;
  }

  predicate SkipsStale(s: State, a: Action)
    requires Enabled(s, a)
  {
    var r := Request(s, a);
    r.Some? && IsStaleSkip(r.value.before, r.value.window, r.value.size)
  }

  lemma StepAgreesIff(s: State, a: Action)
    requires Knows(s) && s.server == s.reference && Enabled(s, a)
    ensures Step(s, a).server == Step(s, a).reference <==> !SkipsStale(s, a)
  {
    hide Managed, Owns;
    if Request(s, a).Some? {
      RequestIsStep(s, a);
      var r := Request(s, a).value;
      if a.InitResources? {
        BirthKeepsKnowing(s, r.before, a.container);
      } else {
        ForgettingKeepsKnowing(s, r.before, {}, {});
      }
      hide Knows, Step, Request, IsStaleSkip;
      SkippingIsSoundIff(r.before, r.window, r.size);
    }
  }

  /** The server is where it would be if every request had been sent, at the start and after every step. */
  predicate AgreesThroughout(s: State, actions: seq<Action>)
    requires IsRun(s, actions)
    decreases |actions|
  {
    s.server == s.reference && (actions == [] || AgreesThroughout(Step(s, actions[0]), actions[1..]))
  }

  predicate NeverSkipsStale(s: State, actions: seq<Action>)
    requires IsRun(s, actions)
    decreases |actions|
  {
    actions == [] || (!SkipsStale(s, actions[0]) && NeverSkipsStale(Step(s, actions[0]), actions[1..]))
  }

  lemma {:induction false} AgreesThroughoutIff(s: State, actions: seq<Action>)
    requires Knows(s) && s.server == s.reference && IsRun(s, actions)
    ensures AgreesThroughout(s, actions) <==> NeverSkipsStale(s, actions)
    decreases |actions|
  {
    hide Step, Knows, SkipsStale;
    if actions != [] {
      StepAgreesIff(s, actions[0]);
      StepKeepsKnowing(s, actions[0]);
      if !SkipsStale(s, actions[0]) {
        AgreesThroughoutIff(Step(s, actions[0]), actions[1..]);
      } else {
        assert !AgreesThroughout(Step(s, actions[0]), actions[1..]);
      }
    }
  }

  /** The guarded requests have the effect of sending every request, at every point of a run, exactly
      if the run never skips one on a record made for an earlier bearer of the window's id. */
  lemma GuardRefinesAlwaysSendingIff(actions: seq<Action>)
    requires IsRun(INITIAL, actions)
    ensures AgreesThroughout(INITIAL, actions) <==> NeverSkipsStale(INITIAL, actions)
  {
    AgreesThroughoutIff(INITIAL, actions);
  }

  lemma RunOfNone(s: State)
    ensures IsRun(s, []) && Run(s, []) == s
  {
  }

  lemma RunPrepend(s: State, a: Action, rest: seq<Action>)
    requires Enabled(s, a) && IsRun(Step(s, a), rest)
    ensures IsRun(s, [a] + rest) && Run(s, [a] + rest) == Run(Step(s, a), rest)
  {
    assert ([a] + rest)[1..] == rest;
  }

  function RecyclingRun(id: HandlerId, w: Window): seq<Action> {
    [ClientCreates(w), Dock(id, w), LeaveArrives(w), HandleEvent(id), LeaveArrives(w), ClientDestroys(w), ClientCreates(w),
     HandleEvent(id)]
  }

  lemma OwnersLeaveIsHandled(s: State, id: HandlerId, w: Window, rest: seq<Event>)
    requires s.events == [Leave(w)] + rest && id in s.handlers && Owns(s.handlers[id], w)
    ensures Enabled(s, HandleEvent(id)) && Step(s, HandleEvent(id)) == Shaped(s.(events := rest), w, EMPTY)
  {
  }

  lemma {:induction false} RunAppend(s: State, first: seq<Action>, second: seq<Action>)
    requires IsRun(s, first) && IsRun(Run(s, first), second)
    ensures IsRun(s, first + second) && Run(s, first + second) == Run(Run(s, first), second)
    decreases |first|
  {
    if first == [] {
      assert first + second == second;
    } else {
      RunAppend(Step(s, first[0]), first[1..], second);
      assert (first + second)[1..] == first[1..] + second;
    }
  }

  lemma DockingSteps(id: HandlerId, w: Window, s1: State, s2: State, s3: State)
    requires s1 == State(map[], map[], map[w := None], map[w := None], [], History(map[w := 1], map[]))
    requires s2 == s1.(handlers := map[id := Handler(w, None, true)]) && s3 == s2.(events := [Leave(w)])
    ensures Enabled(INITIAL, ClientCreates(w)) && Step(INITIAL, ClientCreates(w)) == s1
    ensures Enabled(s1, Dock(id, w)) && Step(s1, Dock(id, w)) == s2
    ensures Enabled(s2, LeaveArrives(w)) && Step(s2, LeaveArrives(w)) == s3
  {
  }

  lemma ShapingStep(id: HandlerId, w: Window, s: State, t: State)
    requires s == State(map[], map[id := Handler(w, None, true)], map[w := None], map[w := None], [Leave(w)],
                        History(map[w := 1], map[]))
    requires t == State(map[w := EMPTY], s.handlers, map[w := Some(EMPTY)], map[w := Some(EMPTY)], [],
                        History(map[w := 1], map[w := 1]))
    ensures Enabled(s, HandleEvent(id)) && Step(s, HandleEvent(id)) == t
  {
    OwnersLeaveIsHandled(s, id, w, []);
  }

  /** A docked icon is shaped empty by a leave event. */
  lemma DockedThenShaped(id: HandlerId, w: Window, h: Handler, t: State)
    requires h == Handler(w, None, true)
    requires t == State(map[w := EMPTY], map[id := h], map[w := Some(EMPTY)], map[w := Some(EMPTY)], [],
                        History(map[w := 1], map[w := 1]))
    ensures var first := RecyclingRun(id, w)[..4];
            IsRun(INITIAL, first) && Run(INITIAL, first) == t
  {
    var s1 := State(map[], map[], map[w := None], map[w := None], [], History(map[w := 1], map[]));
    var s2 := s1.(handlers := map[id := h]);
    var s3 := s2.(events := [Leave(w)]);
    hide Step, Enabled, Run, IsRun;
    DockingSteps(id, w, s1, s2, s3);
    ShapingStep(id, w, s3, t);
    var first := RecyclingRun(id, w)[..4];
    assert first == [ClientCreates(w)] + first[1..] && first[1..] == [Dock(id, w)] + first[2..];
    assert first[2..] == [LeaveArrives(w)] + first[3..] && first[3..] == [HandleEvent(id)] + [];
    hide RecyclingRun;
    RunOfNone(t);
    RunPrepend(s3, HandleEvent(id), []);
    RunPrepend(s2, LeaveArrives(w), first[3..]);
    RunPrepend(s1, Dock(id, w), first[2..]);
    RunPrepend(INITIAL, ClientCreates(w), first[1..]);
  }

  /** Its client destroys it, and a new window gets its id, with another leave event queued. */
  lemma DestroyedThenRecycled(id: HandlerId, w: Window, h: Handler, s: State, t: State)
    requires h == Handler(w, None, true)
    requires s == State(map[w := EMPTY], map[id := h], map[w := Some(EMPTY)], map[w := Some(EMPTY)], [],
                        History(map[w := 1], map[w := 1]))
    requires t == State(map[w := EMPTY], map[id := h], map[w := None], map[w := None], [Leave(w), Destroyed(w)],
                        History(map[w := 2], map[w := 1]))
    ensures var middle := RecyclingRun(id, w)[4..7];
            IsRun(s, middle) && Run(s, middle) == t
  {
    var s5 := s.(events := [Leave(w)]);
    var s6 := t.(server := map[], reference := map[], history := s.history);
    assert map[w := 1][w := 2] == map[w := 2];
    assert !IsContainer(s5.handlers, w);
    assert Step(s, LeaveArrives(w)) == s5 && Step(s5, ClientDestroys(w)) == s6 && Step(s6, ClientCreates(w)) == t;
    var middle := RecyclingRun(id, w)[4..7];
    assert middle == [LeaveArrives(w)] + middle[1..] && middle[1..] == [ClientDestroys(w)] + middle[2..];
    assert middle[2..] == [ClientCreates(w)] + [];
    hide Step, Enabled, RecyclingRun, Run, IsRun;
    RunOfNone(t);
    RunPrepend(s6, ClientCreates(w), []);
    RunPrepend(s5, ClientDestroys(w), middle[2..]);
    RunPrepend(s, LeaveArrives(w), middle[1..]);
  }

  /** Some proviso is needed: recycle an id while a leave and the destroy event of its last bearer are
      queued, and the skipped request is one that sending always would have applied to the new window. */
  lemma EarlyReuseDiffers(id: HandlerId, w: Window)
    ensures IsRun(INITIAL, RecyclingRun(id, w))
    ensures var t := Run(INITIAL, RecyclingRun(id, w));
            t.server == map[w := None] && t.reference == map[w := Some(EMPTY)]
  {
    var h, all := Handler(w, None, true), RecyclingRun(id, w);
    assert all[7..] == [HandleEvent(id)] + [] && all[4..7] + all[7..] == all[4..] && all == all[..4] + all[4..];
    var s4 := State(map[w := EMPTY], map[id := h], map[w := Some(EMPTY)], map[w := Some(EMPTY)], [],
                    History(map[w := 1], map[w := 1]));
    var s7 := s4.(server := map[w := None], reference := map[w := None], events := [Leave(w), Destroyed(w)],
                  history := History(map[w := 2], map[w := 1]));
    DockedThenShaped(id, w, h, s4);
    DestroyedThenRecycled(id, w, h, s4, s7);
    OwnersLeaveIsHandled(s7, id, w, [Destroyed(w)]);
    var s8 := Step(s7, HandleEvent(id));
    assert s8.server == map[w := None] && s8.reference == map[w := Some(EMPTY)];
    hide Step, Enabled, RecyclingRun, Run, IsRun;
    RunOfNone(s8);
    RunPrepend(s7, HandleEvent(id), []);
    RunAppend(s4, all[4..7], all[7..]);
    RunAppend(INITIAL, all[..4], all[4..]);
  }

  // ---------- the leave loop ends ----------

  /** Event handling while nobody hovers or clicks: the record, the queued leave events, and the
      number of requests sent. */
  datatype Loop = Loop(cache: map<Window, Size>, queue: seq<Window>, sent: nat)

  predicate IsEmptyShaped(cache: map<Window, Size>, w: Window) {
    w in cache && cache[w] == EMPTY
  }

  function Unshaped(cache: map<Window, Size>, owned: set<Window>): set<Window> {
    set w | w in owned && !IsEmptyShaped(cache, w)
  }

  /** Handles one leave event. A request that is sent makes the server emit `burst` more of them. */
  function LoopStep(l: Loop, owned: set<Window>, burst: seq<Window>): Loop
    requires l.queue != []
  {
    var w := l.queue[0];
    if w !in owned || IsEmptyShaped(l.cache, w) then l.(queue := l.queue[1..])
    else Loop(l.cache[w := EMPTY], l.queue[1..] + burst, l.sent + 1)
  }

  predicate IsLoopRun(l: Loop, owned: set<Window>, bursts: seq<seq<Window>>)
    decreases |bursts|
  {
    bursts == [] || (l.queue != [] && IsLoopRun(LoopStep(l, owned, bursts[0]), owned, bursts[1..]))
  }

  function LoopRun(l: Loop, owned: set<Window>, bursts: seq<seq<Window>>): Loop
    requires IsLoopRun(l, owned, bursts)
    decreases |bursts|
  {
    if bursts == [] then l else LoopRun(LoopStep(l, owned, bursts[0]), owned, bursts[1..])
  }

  lemma LoopStepSpendsAWindow(l: Loop, owned: set<Window>, burst: seq<Window>)
    requires l.queue != []
    ensures var m := LoopStep(l, owned, burst);
            && |Unshaped(m.cache, owned)| + m.sent == |Unshaped(l.cache, owned)| + l.sent
            && |m.queue| + 1 == |l.queue| + if m.sent == l.sent then 0 else |burst|
  {
    var w, m := l.queue[0], LoopStep(l, owned, burst);
    if m.sent != l.sent {
      assert Unshaped(m.cache, owned) == Unshaped(l.cache, owned) - {w};
    }
  }

  /** However many leave events each sent request causes: requests are sent at most once per owned
      window that is not shaped empty, and if `most` bounds the bursts, the loop handles at most
      `|queue| + most * |unshaped|` events. */
  lemma {:induction false} BurstLoopEnds(l: Loop, owned: set<Window>, bursts: seq<seq<Window>>, most: nat)
    requires IsLoopRun(l, owned, bursts) && (forall b <- bursts :: |b| <= most)
    ensures var m := LoopRun(l, owned, bursts);
            && m.sent + |Unshaped(m.cache, owned)| == l.sent + |Unshaped(l.cache, owned)|
            && l.sent <= m.sent
            && |bursts| + |m.queue| + most * |Unshaped(m.cache, owned)| <= |l.queue| + most * |Unshaped(l.cache, owned)|
    decreases |bursts|
  {
    if bursts != [] {
      var n := LoopStep(l, owned, bursts[0]);
      LoopStepSpendsAWindow(l, owned, bursts[0]);
      OneMoreTime(most, |Unshaped(n.cache, owned)|);
      assert forall b <- bursts[1..] :: b in bursts;
      BurstLoopEnds(n, owned, bursts[1..], most);
    }
  }

  lemma OneMoreTime(most: nat, x: nat)
    ensures most * (x + 1) == most * x + most
  {
  }

  // ---------- the loop within the whole system ----------

  function Claimed(h: Handler): set<Window> {
    if h.owned then WindowsOf(h) else {}
  }

  function OwnedWindows(handlers: map<HandlerId, Handler>): set<Window> {
    set id, w | id in handlers && w in Claimed(handlers[id]) :: w
  }

  lemma OwnedIffManaged(handlers: map<HandlerId, Handler>, w: Window)
    ensures w in OwnedWindows(handlers) <==> Managed(handlers, w)
  {
    assert forall id <- handlers :: w in Claimed(handlers[id]) <==> Owns(handlers[id], w);
  }

  function UnshapedWindows(s: State): set<Window> {
    Unshaped(s.cache, OwnedWindows(s.handlers))
  }

  /** Events are handled, leave events arrive and windows are destroyed, but nobody hovers or clicks
      and no icon comes or goes. */
  predicate OfLoop(a: Action) {
    a.HandleEvent? || a.LeaveArrives? || a.ClientDestroys?
  }

  /** A request goes to the server. */
  predicate Sends(s: State, a: Action) {
    && a.HandleEvent? && s.events != [] && s.events[0].Leave?
    && Managed(s.handlers, s.events[0].window) && !IsEmptyShaped(s.cache, s.events[0].window)
  }

  /** No window is claimed by two handlers. */
  predicate OwnedOnce(handlers: map<HandlerId, Handler>) {
    forall i, j | i in handlers && j in handlers && i != j :: Claimed(handlers[i]) !! Claimed(handlers[j])
  }

  /** A handler that gives up its windows may take the records of windows that another one claims too. */
  function Reopened(s: State, a: Action): nat {
    if a.HandleEvent? && s.events != [] && s.events[0].Destroyed? && !OwnedOnce(s.handlers) then 2 else 0
  }

  lemma LeaveIsLoopStep(s: State, owner: HandlerId, sent: nat)
    requires Enabled(s, HandleEvent(owner)) && s.events[0].Leave?
    ensures var w, t := s.events[0].window, Step(s, HandleEvent(owner));
            var l := LoopStep(Loop(s.cache, [w], sent), OwnedWindows(s.handlers), []);
            && l.cache == t.cache && l.queue == [] && t.events == s.events[1..] && t.handlers == s.handlers
            && l.sent == sent + if Sends(s, HandleEvent(owner)) then 1 else 0
  {
    hide Managed, OwnedWindows;
    OwnedIffManaged(s.handlers, s.events[0].window);
  }

  lemma InvalidatingKeepsOwners(handlers: map<HandlerId, Handler>, id: HandlerId, h: Handler, w: Window)
    requires id in handlers && h == handlers[id] && h.owned
    ensures var after := handlers[id := h.(owned := false)];
            && (w in OwnedWindows(after) ==> w in OwnedWindows(handlers))
            && (w in OwnedWindows(after) && OwnedOnce(handlers) ==> w !in WindowsOf(h))
            && (OwnedOnce(handlers) ==> OwnedOnce(after))
  {
    var after := handlers[id := h.(owned := false)];
    if w in OwnedWindows(after) {
      var j :| j in after && w in Claimed(after[j]);
      assert j != id && w in Claimed(handlers[j]) && Claimed(handlers[id]) == WindowsOf(h);
    }
  }

  lemma InvalidatingReopens(s: State, id: HandlerId)
    requires id in s.handlers
    ensures |UnshapedWindows(Invalidated(s, id))| <= |UnshapedWindows(s)| + if OwnedOnce(s.handlers) then 0 else 2
    ensures OwnedOnce(s.handlers) ==> OwnedOnce(Invalidated(s, id).handlers)
  {
    hide OwnedWindows, OwnedOnce, WindowsOf;
    var t, h := Invalidated(s, id), s.handlers[id];
    if h.owned {
      var before, after := UnshapedWindows(s), UnshapedWindows(t);
      forall w
        ensures w in OwnedWindows(t.handlers) ==> w in OwnedWindows(s.handlers)
        ensures w in OwnedWindows(t.handlers) && OwnedOnce(s.handlers) ==> w !in WindowsOf(h)
        ensures OwnedOnce(s.handlers) ==> OwnedOnce(t.handlers)
      {
        InvalidatingKeepsOwners(s.handlers, id, h, w);
      }
      InvalidatingKeepsOwners(s.handlers, id, h, 0);
      FewWindows(h);
      if OwnedOnce(s.handlers) {
        assert after <= before;
        SubsetSize(after, before);
      } else {
        assert after <= before + WindowsOf(h);
        SubsetSize(after, before + WindowsOf(h));
      }
    }
  }

  lemma FewWindows(h: Handler)
    ensures |WindowsOf(h)| <= 2
  {
  }

  lemma LoopActionSpends(s: State, a: Action)
    requires Enabled(s, a) && OfLoop(a)
    ensures var t := Step(s, a);
            && |UnshapedWindows(t)| + (if Sends(s, a) then 1 else 0) <= |UnshapedWindows(s)| + Reopened(s, a)
            && |t.events| + (if a.HandleEvent? then 1 else 0) == |s.events| + (if a.HandleEvent? then 0 else 1)
            && (OwnedOnce(s.handlers) ==> OwnedOnce(t.handlers))
  {
    hide Managed, OwnedOnce, WindowsOf, OwnedWindows;
    if a.HandleEvent? {
      var w, owned := s.events[0].window, OwnedWindows(s.handlers);
      if s.events[0].Leave? {
        LeaveIsLoopStep(s, a.owner, 0);
        LoopStepSpendsAWindow(Loop(s.cache, [w], 0), owned, []);
      } else if Managed(s.handlers, w) {
        InvalidatingReopens(s.(events := s.events[1..]), a.owner);
      }
    }
  }

  function Handled(actions: seq<Action>): nat {
    if actions == [] then 0 else (if actions[0].HandleEvent? then 1 else 0) + Handled(actions[1..])
  }

  function Arrivals(actions: seq<Action>): nat {
    if actions == [] then 0 else (if actions[0].LeaveArrives? then 1 else 0) + Arrivals(actions[1..])
  }

  function Destructions(actions: seq<Action>): nat {
    if actions == [] then 0 else (if actions[0].ClientDestroys? then 1 else 0) + Destructions(actions[1..])
  }

  function RequestsSent(s: State, actions: seq<Action>): nat
    requires IsRun(s, actions)
    decreases |actions|
  {
    if actions == [] then 0
    else (if Sends(s, actions[0]) then 1 else 0) + RequestsSent(Step(s, actions[0]), actions[1..])
  }

  function AllReopened(s: State, actions: seq<Action>): nat
    requires IsRun(s, actions)
    decreases |actions|
  {
    if actions == [] then 0 else Reopened(s, actions[0]) + AllReopened(Step(s, actions[0]), actions[1..])
  }

  lemma {:induction false} LoopRunSpends(s: State, actions: seq<Action>)
    requires IsRun(s, actions) && (forall a <- actions :: OfLoop(a))
    ensures RequestsSent(s, actions) + |UnshapedWindows(Run(s, actions))| <= |UnshapedWindows(s)| + AllReopened(s, actions)
    ensures Handled(actions) + |Run(s, actions).events| == |s.events| + Arrivals(actions) + Destructions(actions)
    ensures OwnedOnce(s.handlers) ==> AllReopened(s, actions) == 0
    decreases |actions|
  {
    hide Step, Sends, Enabled, UnshapedWindows, OwnedOnce;
    if actions != [] {
      LoopActionSpends(s, actions[0]);
      assert forall a <- actions[1..] :: a in actions;
      LoopRunSpends(Step(s, actions[0]), actions[1..]);
    }
  }

  /** If every request sent causes at most `most` leave events, and nothing else does, event handling
      ends: with windows destroyed at any time in between, requests are sent at most once per owned
      window not recorded empty (and twice per destroy event, if handlers share windows), and a bounded
      number of events is handled. */
  lemma LeaveLoopEnds(s: State, actions: seq<Action>, most: nat)
    requires IsRun(s, actions) && (forall a <- actions :: OfLoop(a))
    requires Arrivals(actions) <= most * RequestsSent(s, actions)
    ensures var requests := |UnshapedWindows(s)| + AllReopened(s, actions);
            && RequestsSent(s, actions) <= requests
            && Handled(actions) <= |s.events| + Destructions(actions) + most * requests
    ensures OwnedOnce(s.handlers) ==> AllReopened(s, actions) == 0
  {
    hide RequestsSent, AllReopened, Handled, Arrivals, Destructions, Run, IsRun, UnshapedWindows, OwnedOnce, OfLoop;
    LoopRunSpends(s, actions);
    MoreTimes(most, RequestsSent(s, actions), |UnshapedWindows(s)| + AllReopened(s, actions));
  }

  lemma MoreTimes(most: nat, x: nat, y: nat)
    requires x <= y
    ensures most * x <= most * y
  {
  }

  // ---------- the cache and the handler as objects ----------

  class Util {
    var inputShapes: map<Window, Size>

    constructor ()
      ensures inputShapes == map[]
    {
      inputShapes := map[];
    }

    /** Asks for a shape; the result tells whether a request goes to the server. */
    method SetX11WindowInputShape(window: Window, size: Size) returns (sent: bool)
      modifies this
      ensures inputShapes == old(inputShapes)[window := size]
      ensures sent <==> !(window in old(inputShapes) && old(inputShapes)[window] == size)
      ensures forall s: State | s.cache == old(inputShapes) :: Shaped(s, window, size).cache == inputShapes
    {
      if window in inputShapes && inputShapes[window] == size {
        return false;
      }
      inputShapes := inputShapes[window := size];
      sent := true;
    }

    method RemoveX11WindowInputShapeRecord(window: Window)
      modifies this
      ensures inputShapes == old(inputShapes) - {window}
    {
      inputShapes := inputShapes - {window};
    }

    /** Handles leave events until none is left; `burst(n)` is what the n-th request sent makes the
        server emit. */
    method HandleLeaves(owned: set<Window>, queue: seq<Window>, burst: nat -> seq<Window>) returns (sent: nat)
      modifies this
      ensures sent + |Unshaped(inputShapes, owned)| == |Unshaped(old(inputShapes), owned)|
      ensures forall w <- queue | w in owned :: IsEmptyShaped(inputShapes, w)
      ensures forall w | w in old(inputShapes) && w !in owned :: w in inputShapes && inputShapes[w] == old(inputShapes)[w]
    {
      var todo := queue;
      sent := 0;
      while todo != []
        invariant sent + |Unshaped(inputShapes, owned)| == |Unshaped(old(inputShapes), owned)|
        invariant forall w <- queue | w in owned :: IsEmptyShaped(inputShapes, w) || w in todo
        invariant forall w | w in old(inputShapes) && w !in owned :: w in inputShapes && inputShapes[w] == old(inputShapes)[w]
        decreases |Unshaped(inputShapes, owned)|, |todo|
      {
        var w := todo[0];
        ghost var l := Loop(inputShapes, todo, sent);
        LoopStepSpendsAWindow(l, owned, burst(sent));
        assert todo == [w] + todo[1..];
        todo := todo[1..];
        if w in owned {
          var asked := SetX11WindowInputShape(w, EMPTY);
          if asked {
            todo := todo + burst(sent);
            sent := sent + 1;
          }
          assert Loop(inputShapes, todo, sent) == LoopStep(l, owned, burst(l.sent));
        }
      }
    }
  }

  class XembedProtocolHandler {
    const util: Util
    const windowId: Window
    var containerWid: Option<Window>
    var owned: bool

    constructor (util: Util, windowId: Window)
      ensures this.util == util && Abs() == Handler(windowId, None, true)
    {
      this.util, this.windowId, containerWid, owned := util, windowId, None, true;
    }

    ghost function Abs(): Handler
      reads this
    {
      Handler(windowId, containerWid, owned)
    }

    predicate OwnsX11Window(window: Window)
      reads this
      ensures OwnsX11Window(window) == Owns(Abs(), window)
    {
      owned && (window == windowId || containerWid == Some(window))
    }

    /** Gives up the windows, and forgets what shape they were given. */
    method Invalidate()
      modifies this`owned, util
      ensures Abs() == old(Abs()).(owned := false)
      ensures util.inputShapes == if old(owned) then Forgotten(old(util.inputShapes), Abs()) else old(util.inputShapes)
    {
      if !owned {
        return;
      }
      owned := false;
      util.RemoveX11WindowInputShapeRecord(windowId);
      if containerWid.Some? {
        util.RemoveX11WindowInputShapeRecord(containerWid.value);
      }
    }

    /** The destructor: the result is the container window it destroys, if there is one. */
    method Destroy() returns (destroyed: Option<Window>)
      modifies util
      ensures util.inputShapes == Forgotten(old(util.inputShapes), Abs())
      ensures destroyed == containerWid
    {
      if containerWid.Some? {
        util.RemoveX11WindowInputShapeRecord(containerWid.value);
      }
      util.RemoveX11WindowInputShapeRecord(windowId);
      destroyed := containerWid;
    }
  }

  /** The registry of handlers, as far as the event filter uses it. */
  class XembedProtocol {
    const util: Util
    var registedItem: map<HandlerId, XembedProtocolHandler>

    constructor (util: Util)
      ensures this.util == util && registedItem == map[]
    {
      this.util, registedItem := util, map[];
    }

    ghost predicate Valid()
      reads this, registedItem.Values
    {
      && (forall id <- registedItem :: registedItem[id].util == util)
      && (forall i, j | i in registedItem && j in registedItem && i != j :: registedItem[i] != registedItem[j])
    }

    ghost function Handlers(): map<HandlerId, Handler>
      reads this, registedItem.Values
    {
      map id | id in registedItem :: registedItem[id].Abs()
    }

    /** Looks through the registry for a handler that owns the window, and stops at the first. */
    method FindOwner(keys: seq<HandlerId>, window: Window) returns (owner: Option<HandlerId>)
      requires (forall id <- keys :: id in registedItem) && (forall id <- registedItem :: id in keys)
      ensures owner.Some? <==> Managed(Handlers(), window)
      ensures owner.Some? ==> owner.value in Handlers() && Owns(Handlers()[owner.value], window)
    {
      for n := 0 to |keys|
        invariant forall i | 0 <= i < n :: !Owns(Handlers()[keys[i]], window)
      {
        if registedItem[keys[n]].OwnsX11Window(window) {
          return Some(keys[n]);
        }
      }
      owner := None;
    }

    /** An owned window that is left is shaped empty, and the event consumed. */
    method OnLeaveNotify(window: Window, keys: seq<HandlerId>) returns (consumed: bool, ghost owner: HandlerId)
      requires Valid() && (forall id <- keys :: id in registedItem) && (forall id <- registedItem :: id in keys)
      modifies util
      ensures consumed <==> Managed(Handlers(), window)
      ensures consumed ==> owner in Handlers() && Owns(Handlers()[owner], window)
      ensures util.inputShapes == if consumed then old(util.inputShapes)[window := EMPTY] else old(util.inputShapes)
    {
      var found := FindOwner(keys, window);
      if found.None? {
        return false, 0;
      }
      var sent := util.SetX11WindowInputShape(window, EMPTY);
      consumed, owner := true, found.value;
    }

    /** The owner of a window that was destroyed gives its windows up. */
    method OnDestroyNotify(window: Window, keys: seq<HandlerId>) returns (ghost owner: HandlerId)
      requires Valid() && (forall id <- keys :: id in registedItem) && (forall id <- registedItem :: id in keys)
      modifies util, registedItem.Values
      ensures Valid()
      ensures !Managed(old(Handlers()), window) ==> Handlers() == old(Handlers()) && util.inputShapes == old(util.inputShapes)
      ensures Managed(old(Handlers()), window) ==>
                && owner in old(Handlers()) && Owns(old(Handlers())[owner], window)
                && Handlers() == old(Handlers())[owner := old(Handlers())[owner].(owned := false)]
                && util.inputShapes == Forgotten(old(util.inputShapes), old(Handlers())[owner])
    {
      ghost var before := Handlers();
      var found := FindOwner(keys, window);
      if found.None? {
        return 0;
      }
      owner := found.value;
      var handler := registedItem[found.value];
      handler.Invalidate();
      assert Handlers() == before[owner := before[owner].(owned := false)];
    }

    /** The state of the system: the record and the handlers are here, the rest is elsewhere. */
    ghost function Abs(rest: State): State
      reads this, util, registedItem.Values
    {
      rest.(cache := util.inputShapes, handlers := Handlers())
    }

    /** The event filter; destroy events are left for others to see. */
    method NativeEventFilter(event: Event, keys: seq<HandlerId>, ghost rest: State)
      returns (consumed: bool, ghost owner: HandlerId)
      requires Valid() && (forall id <- keys :: id in registedItem) && (forall id <- registedItem :: id in keys)
      requires rest.events != [] && rest.events[0] == event
      modifies util, registedItem.Values
      ensures Valid()
      ensures consumed <==> event.Leave? && Managed(old(Handlers()), event.window)
      ensures Enabled(old(Abs(rest)), HandleEvent(owner))
      ensures Abs(rest).cache == EventHandled(old(Abs(rest)), owner).cache
      ensures Abs(rest).handlers == EventHandled(old(Abs(rest)), owner).handlers
    {
      hide Managed, Forgotten;
      if event.Leave? {
        consumed, owner := OnLeaveNotify(event.window, keys);
        assert Handlers() == old(Handlers());
      } else {
        owner := OnDestroyNotify(event.window, keys);
        consumed := false;
      }
    }
  }
}
