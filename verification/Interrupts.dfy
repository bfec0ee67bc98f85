/**
 External interrupts on their way to the guest: the bitmap of pending vectors, the VM-entry interruption field,
 and the interrupt-window control that brings the hypervisor back for the vectors it could not inject.
 */
module Interrupts {
  import opened Memslots

  const WORDS := 8
  const BITS := 32

  /** A word of the bitmap, as the set of its bits. */
  type Word = set<nat>

  ghost predicate Bitmap(words: seq<Word>) {
    |words| == WORDS && forall i, b: nat :: 0 <= i < WORDS && b in words[i] ==> b < BITS
  }

  /** The vectors whose bits are set. */
  ghost function Vectors(words: seq<Word>): set<nat>
    requires Bitmap(words)
  {
    set v: nat | v < WORDS * BITS && v % BITS in words[v / BITS]
  }

  lemma SetBit(words: seq<Word>, v: nat, words': seq<Word>)
    requires Bitmap(words) && v < WORDS * BITS
    requires words' == words[v / BITS := words[v / BITS] + {v % BITS}]
    ensures Bitmap(words') && Vectors(words') == Vectors(words) + {v}
  {
    forall u: nat | u < WORDS * BITS ensures u in Vectors(words') <==> u in Vectors(words) + {v} {
      SameVector(u, v);
    }
    assert Vectors(words') == Vectors(words) + {v};
  }

  lemma ClearBit(words: seq<Word>, v: nat, words': seq<Word>)
    requires Bitmap(words) && v < WORDS * BITS
    requires words' == words[v / BITS := words[v / BITS] - {v % BITS}]
    ensures Bitmap(words') && Vectors(words') == Vectors(words) - {v}
  {
    forall u: nat | u < WORDS * BITS ensures u in Vectors(words') <==> u in Vectors(words) - {v} {
      SameVector(u, v);
    }
    assert Vectors(words') == Vectors(words) - {v};
  }

  lemma SameVector(u: nat, v: nat)
    ensures u == v <==> u / BITS == v / BITS && u % BITS == v % BITS
  {
  }

  /** asm_fls: the highest bit of a word that is not zero. */
  method HighestBit(word: Word) returns (b: nat)
    requires word != {} && forall k :: k in word ==> k < BITS
    ensures b in word && forall k :: k in word ==> k <= b
  {
    b := BITS - 1;
    while b !in word
      invariant b < BITS && forall k :: k in word ==> k <= b
      decreases b
    {
      assert b > 0 by {
        var k :| k in word;
        assert k != b;
      }
      b := b - 1;
    }
  }

  /** An event in the VM-entry interruption field. */
  datatype Event = Nothing | External(vector: nat) | Exception(vector: nat)

  /** Every time vector v was raised, it is pending, in the entry field, delivered, or one with the v that was
      pending already; and never two of these. */
  ghost predicate Balance(v: nat, raised: nat, merged: nat, pending: set<nat>, entry: Event, delivered: nat) {
    raised == merged + (if v in pending then 1 else 0) + (if entry == External(v) then 1 else 0) + delivered
  }

  /** How a VM entry ends. `interrupted`: the exit comes while the injected event is being delivered. */
  datatype Exit =
    | EntryFailed
    | Exited(interrupted: bool, enabled: bool, sti: bool, ss: bool)

  /** What an exit handler may do to the state modelled here. */
  datatype Action =
    | InjectPageFault
    | InjectFault(vector: nat)
    | WindowOpened
    | WriteControlRegisters
    | AdvanceRip

  /** An event is injected into the guest. */
  predicate Injects(action: Action) {
    action.InjectPageFault? || action.InjectFault?
  }

  // ---- The loop on values ------------------------------------------------------------------------

  /** What the loop goes by. */
  datatype State = State(pending: set<nat>, entry: Event, pageFault: bool, injected: bool, window: bool,
                         enabled: bool, sti: bool, ss: bool)

  ghost predicate IsHighest(s: set<nat>, v: nat) {
    v in s && forall u :: u in s ==> u <= v
  }

  ghost function Highest(s: set<nat>): (v: nat)
    requires s != {}
    ensures IsHighest(s, v)
  {
    HasHighest(s);
    var v :| IsHighest(s, v);
    v
  }

  lemma {:induction false} HasHighest(s: set<nat>)
    requires s != {}
    ensures exists v :: IsHighest(s, v)
    decreases |s|
  {
    var x :| x in s;
    var t := s - {x};
    if t == {} {
      assert s == {x};
      assert IsHighest(s, x);
    } else {
      HasHighest(t);
      var v :| IsHighest(t, v);
      var m := if v < x then x else v;
      forall u | u in s ensures u <= m {
        assert u == x || u in t;
      }
      assert IsHighest(s, m);
    }
  }

  predicate Interruptible(s: State) {
    s.enabled && !s.sti && !s.ss
  }

  /** A pending interrupt can go into the entry field. */
  predicate Ready(s: State) {
    s.pending != {} && s.entry == Nothing && !s.pageFault && !s.injected && Interruptible(s)
  }

  ghost function Written(s: State): State {
    if s.pageFault then s.(entry := Exception(14), pageFault := false) else s
  }

  ghost function Moved(s: State): State {
    if !Ready(s) then s
    else s.(entry := External(Highest(s.pending)), pending := s.pending - {Highest(s.pending)}, injected := true)
  }

  ghost function Injected(s: State, request: bool): State {
    var t := Moved(s);
    t.(window := t.window || t.pending != {} || request)
  }

  ghost function Entered(s: State, request: bool): State {
    var t := Injected(Written(s), request);
    t.(sti := t.sti && t.enabled)
  }

  ghost function Left(s: State, exit: Exit): State {
    match exit
    case EntryFailed => s
    case Exited(interrupted, enabled, sti, ss) =>
      s.(entry := Nothing, enabled := enabled, sti := sti, ss := ss,
         pending := if interrupted && s.entry.External? then s.pending + {s.entry.vector} else s.pending)
  }

  function Acted(s: State, action: Action): State {
    match action
    case InjectPageFault => s.(pageFault := true, injected := true)
    case InjectFault(vector) => if vector == 14 then s.(pageFault := true, injected := true)
                                else s.(entry := Exception(vector), injected := true)
    case WindowOpened => s.(window := false)
    case WriteControlRegisters => s.(window := false)
    case AdvanceRip => s.(sti := false, ss := false)
  }

  function Handled(s: State, actions: seq<Action>): State {
    if actions == [] then s.(injected := false)
    else Acted(Handled(s, actions[..|actions| - 1]), actions[|actions| - 1])
  }

  type Exits = seq<(Exit, seq<Action>)>

  ghost function Turn(s: State, request: bool, exit: Exit, actions: seq<Action>): State {
    var t := Left(Entered(s, request), exit);
    if exit.EntryFailed? then t else Handled(t, actions)
  }

  /** The interrupt that reaches the guest in a turn, if one does. */
  ghost function Delivery(s: State, request: bool, exit: Exit): seq<nat> {
    var e := Entered(s, request).entry;
    if exit.Exited? && !exit.interrupted && e.External? then [e.vector] else []
  }

  /** A failed entry ends the loop. */
  ghost function Run(s: State, request: bool, exits: Exits): State
    decreases |exits|
  {
    if exits == [] then s
    else
      var t := Turn(s, request, exits[0].0, exits[0].1);
      if exits[0].0.EntryFailed? then t else Run(t, request, exits[1..])
  }

  /** The interrupts that reach the guest, in their order. */
  ghost function Deliveries(s: State, request: bool, exits: Exits): seq<nat>
    decreases |exits|
  {
    if exits == [] then []
    else
      var d := Delivery(s, request, exits[0].0);
      if exits[0].0.EntryFailed? then d
      else d + Deliveries(Turn(s, request, exits[0].0, exits[0].1), request, exits[1..])
  }

  class Vcpu {
    const intrPending: array<Word>
    var nrPending: nat
    var eventInjected: bool

    // The interruption field of the VMCS, and a page fault that waits to be written to it.
    var entry: Event
    var pageFault: bool

    // Interrupt-window exiting: in the cached controls, in the VMCS.
    var window: bool
    var vmcsWindow: bool
    var controlsDirty: bool

    // RFLAGS.IF and blocking by STI and by MOV SS: in the cached state, in the VMCS.
    var enabled: bool
    var vmcsEnabled: bool
    var rflagsDirty: bool
    var sti: bool
    var ss: bool
    var vmcsSti: bool
    var vmcsSs: bool
    var blockedDirty: bool

    // One vector, any one, and how often it was raised by the user and was found pending already.
    ghost const watched: nat
    ghost var raised: nat
    ghost var merged: nat

    // Every interrupt that was delivered, in order.
    ghost var log: seq<nat>

    ghost function View(): State
      reads this, intrPending
      requires Bitmap(intrPending[..])
    {
      State(Pending(), entry, pageFault, eventInjected, window, enabled, sti, ss)
    }

    ghost function One(v: nat): nat {
      if v == watched then 1 else 0
    }

    ghost function Pending(): set<nat>
      reads intrPending
      requires Bitmap(intrPending[..])
    {
      Vectors(intrPending[..])
    }

    /** The counter is the number of set bits. */
    ghost predicate Counted()
      reads this`nrPending, intrPending
    {
      Bitmap(intrPending[..]) && nrPending == |Pending()|
    }

    ghost predicate Conserved()
      reads this`raised, this`merged, this`entry, this`log, intrPending
      requires Bitmap(intrPending[..])
    {
      Balance(watched, raised, merged, Pending(), entry, multiset(log)[watched])
    }

    /** What is cached is in the VMCS, or will be written to it before the next entry. */
    ghost predicate Synced()
      reads this
    {
      && (!controlsDirty ==> window == vmcsWindow)
      && (!rflagsDirty ==> enabled == vmcsEnabled)
      && (!blockedDirty ==> sti == vmcsSti && ss == vmcsSs)
    }

    ghost predicate Valid()
      reads this, intrPending
    {
      && Counted() && Conserved() && Synced()
      && (pageFault ==> eventInjected && !entry.External?)
      && (entry.External? ==> entry.vector < WORDS * BITS)
    }

    constructor (ghost v: nat)
      ensures Valid() && Pending() == {} && raised == 0 && entry == Nothing && watched == v && fresh(intrPending)
      ensures !eventInjected && !pageFault && !sti && !ss && log == []
    {
      var words := new Word[WORDS](_ => {});
      intrPending := words;
      nrPending, eventInjected, entry, pageFault := 0, false, Nothing, false;
      window, vmcsWindow, controlsDirty := false, false, false;
      enabled, vmcsEnabled, rflagsDirty := false, false, false;
      sti, ss, vmcsSti, vmcsSs, blockedDirty := false, false, false, false, false;
      raised, merged, log, watched := 0, 0, [], v;
      new;
      assert intrPending[..] == seq(WORDS, _ => {});
      assert Vectors(intrPending[..]) == {};
    }

    /** vcpu_get_pending_intrs: the highest pending vector. */
    method GetPending() returns (v: Option<nat>)
      requires Counted()
      ensures v.None? <==> Pending() == {}
      ensures v.Some? ==> IsHighest(Pending(), v.value)
    {
      if nrPending == 0 {
        return None;
      }
      var i := WORDS - 1;
      while i >= 0 && intrPending[i] == {}
        invariant -1 <= i < WORDS
        invariant forall j :: i < j < WORDS ==> intrPending[j] == {}
      {
        i := i - 1;
      }
      NoVector(intrPending[..], i);
      if i < 0 {
        return None;
      }
      var offset := HighestBit(intrPending[i]);
      HighestVector(intrPending[..], i, offset);
      v := Some(i * BITS + offset);
    }

    /** hax_set_pending_intr */
    method SetPending(v: nat) returns (added: bool)
      requires Counted() && v < WORDS * BITS
      modifies this`nrPending, intrPending
      ensures Counted() && Pending() == old(Pending()) + {v} && added == (v !in old(Pending()))
    {
      var offset, word := v % BITS, v / BITS;
      ghost var words := intrPending[..];
      if offset in intrPending[word] {
        assert words[word] + {offset} == words[word];
        return false;
      }
      added := true;
      intrPending[word] := intrPending[word] + {offset};
      nrPending := nrPending + 1;
      SetBit(words, v, intrPending[..]);
    }

    /** vcpu_ack_intr */
    method Acknowledge(v: nat)
      requires Counted() && v in Pending()
      modifies this`nrPending, intrPending
      ensures Counted() && Pending() == old(Pending()) - {v}
    {
      var offset, word := v % BITS, v / BITS;
      ghost var words := intrPending[..];
      intrPending[word] := intrPending[word] - {offset};
      nrPending := nrPending - 1;
      ClearBit(words, v, intrPending[..]);
    }

    /** vcpu_interrupt: a vector raised by the user. */
    method Raise(v: nat)
      requires Valid() && v < WORDS * BITS
      modifies this`nrPending, this`raised, this`merged, intrPending
      ensures Valid() && Pending() == old(Pending()) + {v} && raised == old(raised) + One(v)
    {
      var added := SetPending(v);
      raised := raised + One(v);
      if !added {
        merged := merged + One(v);
      }
    }

    /** hax_intr_is_blocked */
    predicate IsBlocked()
      reads this
    {
      !enabled || sti || ss
    }

    /** hax_inject_intr */
    method Inject(v: nat)
      requires Valid() && v in Pending() && entry == Nothing && !eventInjected
      modifies this`entry, this`nrPending, this`eventInjected, intrPending
      ensures Valid() && Pending() == old(Pending()) - {v} && entry == External(v) && eventInjected
    {
      entry := External(v);
      Acknowledge(v);
      eventInjected := true;
    }

    /** vcpu_inject_intr: exactly when something is pending and nothing stands in the way, the highest pending
        vector moves to the entry field; while vectors remain, interrupt-window exiting is on. */
    method InjectInterrupt(request: bool)
      requires Valid() && !pageFault
      modifies this`entry, this`nrPending, this`eventInjected, this`window, this`vmcsWindow, intrPending
      ensures Valid() && View() == Injected(old(View()), request)
      ensures Pending() != {} || request ==> window && vmcsWindow
    {
      InjectHighest();
      var v := GetPending();
      if v.Some? || request {
        window := true;
        vmcsWindow := true;
      }
    }

    method InjectHighest()
      requires Valid() && !pageFault
      modifies this`entry, this`nrPending, this`eventInjected, intrPending
      ensures Valid() && View() == Moved(old(View()))
    {
      var v := GetPending();
      if v.Some? && !eventInjected && !IsBlocked() && entry == Nothing {
        Inject(v.value);
      }
    }

    /** vcpu_handle_vmcs_pending */
    method WritePageFault()
      requires Valid()
      modifies this`entry, this`pageFault
      ensures Valid() && !pageFault && View() == Written(old(View()))
    {
      if pageFault {
        entry := Exception(14);
        pageFault := false;
      }
    }

    /** load_dirty_vmcs_fields: the VMCS has what is cached; blocking by STI goes where interrupts are off, as VM entry
        demands. */
    method LoadDirty()
      requires Synced()
      modifies this`vmcsWindow, this`controlsDirty, this`vmcsEnabled, this`rflagsDirty, this`sti, this`vmcsSti, this`vmcsSs,
               this`blockedDirty
      ensures Synced() && vmcsWindow == window && vmcsEnabled == enabled && vmcsSti == sti && vmcsSs == ss
      ensures sti == (old(sti) && enabled)
    {
      if rflagsDirty {
        vmcsEnabled := enabled;
        rflagsDirty := false;
      }
      if !enabled && sti {
        sti := false;
        blockedDirty := true;
      }
      if blockedDirty {
        vmcsSti, vmcsSs := sti, ss;
        blockedDirty := false;
      }
      if controlsDirty {
        vmcsWindow := window;
        controlsDirty := false;
      }
    }

    /** The guest, as the VMCS describes it, can take an interrupt. */
    predicate Takes()
      reads this
    {
      vmcsEnabled && !vmcsSti && !vmcsSs
    }

    /** Everything between the top of the loop of cpu_vmx_execute and the VM entry. An external interrupt is only
        put into the field when the guest can take one; one that a failed entry has left there stays; whatever is left
        pending has interrupt-window exiting on, in the cached controls and in the VMCS. */
    method Prepare(request: bool)
      requires Valid()
      modifies this`entry, this`nrPending, this`eventInjected, this`window, this`vmcsWindow, this`pageFault, intrPending,
               this`controlsDirty, this`vmcsEnabled, this`rflagsDirty, this`sti, this`vmcsSti, this`vmcsSs, this`blockedDirty
      ensures Valid() && !pageFault && View() == Entered(old(View()), request)
      ensures Pending() != {} || request ==> window && vmcsWindow
      ensures old(entry).External? ==> entry == old(entry)
      ensures old(entry) == Nothing && !old(pageFault) ==>
                (entry.External? <==> old(Pending()) != {} && !old(eventInjected) && Takes())
      ensures !old(entry).External? && entry.External? ==> IsHighest(old(Pending()), entry.vector)
      ensures Takes() <==> !old(IsBlocked())
    {
      ghost var before := View();
      PrepareEvent(request);
      LoadDirty();
      FieldAtEntry(before, request);
    }

    method PrepareEvent(request: bool)
      requires Valid()
      modifies this`entry, this`nrPending, this`eventInjected, this`window, this`vmcsWindow, this`pageFault, intrPending
      ensures Valid() && View() == Injected(Written(old(View())), request)
      ensures Pending() != {} || request ==> window && vmcsWindow
    {
      WritePageFault();
      InjectInterrupt(request);
    }

    /** The guest runs, and hax_handle_idt_vectoring: an interrupt whose delivery was cut short is pending again. */
    method RunGuest(exit: Exit)
      requires Valid() && !pageFault
      modifies this`entry, this`nrPending, this`merged, this`log, this`enabled, this`vmcsEnabled, this`sti, this`ss,
               this`vmcsSti, this`vmcsSs, intrPending
      ensures Valid() && merged >= old(merged) && View() == Left(old(View()), exit)
      ensures log == old(log) + if exit.Exited? && !exit.interrupted && old(entry).External? then [old(entry).vector] else []
    {
      if exit.EntryFailed? {
        return;
      }
      EndEntry(exit.interrupted);
      ReadState(exit);
    }

    method EndEntry(interrupted: bool)
      requires Counted() && Conserved() && (entry.External? ==> entry.vector < WORDS * BITS)
      modifies this`entry, this`nrPending, this`merged, this`log, intrPending
      ensures Counted() && Conserved() && entry == Nothing && merged >= old(merged)
      ensures Pending() == if interrupted && old(entry).External? then old(Pending()) + {old(entry).vector} else old(Pending())
      ensures log == old(log) + if !interrupted && old(entry).External? then [old(entry).vector] else []
    {
      if interrupted {
        HandleVectoring();
      } else {
        Deliver();
      }
    }

    /** The event in the field reaches the guest. */
    method Deliver()
      requires Counted() && Conserved()
      modifies this`entry, this`log
      ensures Counted() && Conserved() && entry == Nothing && Pending() == old(Pending())
      ensures log == old(log) + if old(entry).External? then [old(entry).vector] else []
    {
      if entry.External? {
        log := log + [entry.vector];
      }
      entry := Nothing;
    }

    /** The guest has left its flags and blocking in the VMCS, and they are read back. */
    method ReadState(exit: Exit)
      requires exit.Exited? && (!controlsDirty ==> window == vmcsWindow)
      modifies this`enabled, this`vmcsEnabled, this`sti, this`ss, this`vmcsSti, this`vmcsSs
      ensures Synced() && enabled == exit.enabled && sti == exit.sti && ss == exit.ss
    {
      vmcsEnabled, vmcsSti, vmcsSs := exit.enabled, exit.sti, exit.ss;
      enabled, sti, ss := vmcsEnabled, vmcsSti, vmcsSs;
    }

    /** hax_handle_idt_vectoring, for the event that was in the entry field. */
    method HandleVectoring()
      requires Counted() && Conserved() && (entry.External? ==> entry.vector < WORDS * BITS)
      modifies this`entry, this`nrPending, this`merged, intrPending
      ensures Counted() && Conserved() && entry == Nothing && merged >= old(merged)
      ensures Pending() == if old(entry).External? then old(Pending()) + {old(entry).vector} else old(Pending())
    {
      var vectoring := entry;
      entry := Nothing;
      if vectoring.External? {
        var added := SetPending(vectoring.vector);
        if !added {
          merged := merged + One(vectoring.vector);
        }
      }
    }

    /** hax_inject_exception: for a page fault the field is written at the next entry. */
    method InjectException(vector: nat)
      requires Valid() && !entry.External?
      modifies this`entry, this`pageFault, this`eventInjected
      ensures Valid() && !entry.External? && eventInjected
      ensures if vector == 14 then pageFault && entry == old(entry) else pageFault == old(pageFault) && entry == Exception(vector)
    {
      if vector == 14 {
        pageFault := true;
      } else {
        entry := Exception(vector);
      }
      eventInjected := true;
    }

    /** One thing an exit handler does. */
    method Act(action: Action)
      requires Valid() && !entry.External?
      modifies this`entry, this`pageFault, this`eventInjected, this`window, this`controlsDirty, this`sti, this`ss, this`blockedDirty
      ensures Valid() && !entry.External? && View() == Acted(old(View()), action)
    {
      match action
      case InjectPageFault => InjectException(14);
      case InjectFault(vector) => InjectException(vector);
      case WindowOpened => CloseWindow();
      case WriteControlRegisters =>
        if window {
          CloseWindow();
        }
      case AdvanceRip => Unblock();
    }

    method CloseWindow()
      requires Synced()
      modifies this`window, this`controlsDirty
      ensures Synced() && !window
    {
      window := false;
      controlsDirty := true;
    }

    /** advance_rip, without the instruction pointer. */
    method Unblock()
      requires Synced()
      modifies this`sti, this`ss, this`blockedDirty
      ensures Synced() && !sti && !ss
    {
      if sti || ss {
        sti, ss := false, false;
        blockedDirty := true;
      }
    }

    /** vcpu_vmexit_handler */
    method HandleExit(actions: seq<Action>)
      requires Valid() && !pageFault && !entry.External?
      modifies this`entry, this`pageFault, this`eventInjected, this`window, this`controlsDirty, this`sti, this`ss, this`blockedDirty
      ensures Valid() && !entry.External? && View() == Handled(old(View()), actions)
      ensures eventInjected <==> exists k :: 0 <= k < |actions| && Injects(actions[k])
    {
      ghost var before := View();
      eventInjected := false;
      for i := 0 to |actions|
        invariant Valid() && !entry.External? && View() == Handled(before, actions[..i])
      {
        Act(actions[i]);
        assert actions[..i + 1][..i] == actions[..i];
      }
      assert actions[..|actions|] == actions;
      InjectedBy(before, actions);
    }

    /** The registers the user may set between two runs. */
    method SetFlags(on: bool)
      requires Valid()
      modifies this`enabled, this`rflagsDirty
      ensures Valid() && enabled == on
    {
      if enabled != on {
        enabled := on;
        rflagsDirty := true;
      }
    }

    /** The loop of cpu_vmx_execute: however the guest exits and whatever the handlers do, no interrupt is lost,
        none is delivered twice, and none is raised by the loop itself. */
    method Execute(request: bool, exits: Exits)
      requires Valid()
      modifies this, intrPending
      ensures Valid() && raised == old(raised) && old(merged) <= merged
      ensures View() == Run(old(View()), request, exits)
      ensures log == old(log) + Deliveries(old(View()), request, exits)
    {
      var i := 0;
      ghost var end, all := Run(View(), request, exits), log + Deliveries(View(), request, exits);
      assert exits[0..] == exits;
      while i < |exits|
        invariant Valid() && raised == old(raised) && i <= |exits| && old(merged) <= merged
        invariant ToCome(View(), log, request, exits[i..], end, all)
      {
        ghost var before, l := View(), log;
        var failed := TakeTurn(request, exits[i].0, exits[i].1);
        OneTurn(before, l, request, exits, i, end, all, View(), log);
        if failed {
          return;
        }
        i := i + 1;
      }
    }

    method TakeTurn(request: bool, exit: Exit, actions: seq<Action>) returns (failed: bool)
      requires Valid()
      modifies this, intrPending
      ensures Valid() && raised == old(raised) && old(merged) <= merged && failed == exit.EntryFailed?
      ensures View() == Turn(old(View()), request, exit, actions)
      ensures log == old(log) + Delivery(old(View()), request, exit)
    {
      Prepare(request);
      RunGuest(exit);
      failed := exit.EntryFailed?;
      if !failed {
        HandleExit(actions);
      }
    }
  }

  /** The exits that are left take the loop to that end and that log. */
  ghost predicate ToCome(s: State, log: seq<nat>, request: bool, exits: Exits, end: State, all: seq<nat>) {
    Run(s, request, exits) == end && log + Deliveries(s, request, exits) == all
  }

  lemma OneTurn(s: State, log: seq<nat>, request: bool, exits: Exits, i: nat, end: State, all: seq<nat>, t: State, log': seq<nat>)
    requires i < |exits| && ToCome(s, log, request, exits[i..], end, all)
    requires t == Turn(s, request, exits[i].0, exits[i].1) && log' == log + Delivery(s, request, exits[i].0)
    ensures if exits[i].0.EntryFailed? then t == end && log' == all else ToCome(t, log', request, exits[i + 1..], end, all)
  {
    assert exits[i..][1..] == exits[i + 1..];
    if !exits[i].0.EntryFailed? {
      var d, rest := Delivery(s, request, exits[i].0), Deliveries(t, request, exits[i + 1..]);
      assert log + (d + rest) == log + d + rest;
    }
  }

  // ---- What the loop comes to --------------------------------------------------------------------

  lemma FieldAtEntry(s: State, request: bool)
    requires s.pageFault ==> !s.entry.External?
    ensures var e := Entered(s, request).entry;
            && !Entered(s, request).pageFault
            && (s.entry.External? ==> e == s.entry)
            && (!s.entry.External? && e.External? ==> IsHighest(s.pending, e.vector))
            && (s.entry == Nothing && !s.pageFault ==> (e.External? <==> s.pending != {} && !s.injected && Interruptible(s)))
  {
  }

  lemma OneAction(s: State, action: Action)
    ensures var t := Acted(s, action);
            && t.pending == s.pending && (!s.entry.External? ==> !t.entry.External?)
            && (if Injects(action) then t.injected
                else t.entry == s.entry && t.pageFault == s.pageFault && t.injected == s.injected)
            && (Interruptible(s) ==> Interruptible(t))
  {
  }

  lemma {:induction false} InjectedBy(s: State, actions: seq<Action>)
    ensures Handled(s, actions).injected <==> exists k :: 0 <= k < |actions| && Injects(actions[k])
  {
    if actions != [] {
      var n := |actions| - 1;
      InjectedBy(s, actions[..n]);
      OneAction(Handled(s, actions[..n]), actions[n]);
      assert forall k :: 0 <= k < n ==> actions[..n][k] == actions[k];
    }
  }

  /** Handlers leave pending interrupts alone, and put none into the field. */
  lemma {:induction false} HandledKeeps(s: State, actions: seq<Action>)
    requires !s.entry.External?
    ensures Handled(s, actions).pending == s.pending && !Handled(s, actions).entry.External?
  {
    if actions != [] {
      var n := |actions| - 1;
      HandledKeeps(s, actions[..n]);
      OneAction(Handled(s, actions[..n]), actions[n]);
    }
  }

  /** In a turn an interrupt reaches the guest exactly if nothing cuts the delivery short and one was left in the
      field or one is pending, the guest takes interrupts and no event is under way; it is then the highest one that
      is pending, and no longer pending afterwards. */
  lemma TurnDelivers(s: State, request: bool, exit: Exit, actions: seq<Action>)
    requires s.pageFault ==> !s.entry.External?
    ensures Delivery(s, request, exit) != [] <==> exit.Exited? && !exit.interrupted && (s.entry.External? || Ready(s))
    ensures exit.Exited? && !exit.interrupted && Ready(s) ==>
              && Delivery(s, request, exit) == [Highest(s.pending)]
              && Turn(s, request, exit, actions).pending == s.pending - {Highest(s.pending)}
  {
    if exit.Exited? && !exit.interrupted {
      HandledKeeps(Left(Entered(s, request), exit), actions);
    }
  }

  ghost predicate Descending(log: seq<nat>) {
    forall i, j :: 0 <= i < j < |log| ==> log[i] > log[j]
  }

  /** Delivered are some of the pending ones, the highest, from the highest down; what is not delivered is still there. */
  ghost predicate HighestOf(pending: set<nat>, log: seq<nat>, end: State) {
    && Descending(log)
    && (forall v :: v in log ==> v in pending)
    && (forall v, u :: v in log && u in pending && u !in log ==> u < v)
    && (forall v :: v in pending && v !in log <==> v in end.pending || end.entry == External(v))
  }

  /** Whatever the guest and the handlers do, interrupts reach the guest in the order of their priority. */
  lemma {:induction false} HighestFirst(s: State, request: bool, exits: Exits)
    requires !s.entry.External?
    ensures HighestOf(s.pending, Deliveries(s, request, exits), Run(s, request, exits))
    decreases |exits|
  {
    if exits != [] {
      var exit, t := exits[0].0, Turn(s, request, exits[0].0, exits[0].1);
      if exit.Exited? {
        HandledKeeps(Left(Entered(s, request), exit), exits[0].1);
        HighestFirst(t, request, exits[1..]);
        OneTurnOfMany(s, request, exit, t, Deliveries(t, request, exits[1..]), Run(t, request, exits[1..]));
      }
    }
  }

  lemma OneTurnOfMany(s: State, request: bool, exit: Exit, t: State, log: seq<nat>, end: State)
    requires !s.entry.External? && exit.Exited?
    requires t.pending == Left(Entered(s, request), exit).pending && HighestOf(t.pending, log, end)
    ensures HighestOf(s.pending, Delivery(s, request, exit) + log, end)
  {
    var e := Entered(s, request).entry;
    if e.External? && !exit.interrupted {
      OneMore(s.pending, e.vector, log, end);
    } else {
      assert t.pending == s.pending && Delivery(s, request, exit) + log == log;
    }
  }

  lemma OneMore(pending: set<nat>, v: nat, log: seq<nat>, end: State)
    requires IsHighest(pending, v) && HighestOf(pending - {v}, log, end)
    ensures HighestOf(pending, [v] + log, end)
  {
    var all := [v] + log;
    forall i, j | 0 <= i < j < |all| ensures all[i] > all[j] {
      assert all[j] == log[j - 1] && log[j - 1] in pending - {v};
    }
  }

  /** A turn in which the guest takes interrupts when it exits, and no handler injects an event. */
  predicate Quiet(exit: Exit, actions: seq<Action>) {
    && exit.Exited? && !exit.interrupted && exit.enabled && !exit.sti && !exit.ss
    && forall k :: 0 <= k < |actions| ==> !Injects(actions[k])
  }

  lemma {:induction false} QuietHandled(s: State, actions: seq<Action>)
    requires forall k :: 0 <= k < |actions| ==> !Injects(actions[k])
    ensures var t := Handled(s, actions);
            && t.pending == s.pending && t.entry == s.entry && t.pageFault == s.pageFault && !t.injected
            && (Interruptible(s) ==> Interruptible(t))
  {
    if actions != [] {
      var n := |actions| - 1;
      QuietHandled(s, actions[..n]);
      OneAction(Handled(s, actions[..n]), actions[n]);
    }
  }

  /** Every quiet turn delivers one, until none is left. */
  lemma {:induction false} QuietRun(s: State, request: bool, exits: Exits)
    requires s.entry == Nothing && !s.pageFault && !s.injected && Interruptible(s)
    requires forall k :: 0 <= k < |exits| ==> Quiet(exits[k].0, exits[k].1)
    ensures |Deliveries(s, request, exits)| == if |exits| < |s.pending| then |exits| else |s.pending|
    decreases |exits|
  {
    if exits != [] {
      var t := Turn(s, request, exits[0].0, exits[0].1);
      QuietHandled(Left(Entered(s, request), exits[0].0), exits[0].1);
      QuietRun(t, request, exits[1..]);
    }
  }

  /** What a failed entry leaves in the field does not have to fit any more: the user turns interrupts off, and the
      next entry carries an interrupt that the guest cannot take. */
  method StaleInterrupt() returns (vcpu: Vcpu)
    ensures fresh(vcpu) && vcpu.entry == External(32) && !vcpu.Takes()
  {
    vcpu := FailedEntry();
    vcpu.SetFlags(false);
    vcpu.Prepare(false);
  }

  method FailedEntry() returns (vcpu: Vcpu)
    ensures fresh(vcpu) && fresh(vcpu.intrPending) && vcpu.Valid() && vcpu.entry == External(32)
  {
    vcpu := ReadyToEnter();
    vcpu.RunGuest(EntryFailed);
  }

  method ReadyToEnter() returns (vcpu: Vcpu)
    ensures fresh(vcpu) && fresh(vcpu.intrPending) && vcpu.Valid() && vcpu.entry == External(32)
  {
    vcpu := Raised();
    vcpu.Prepare(false);
  }

  method Raised() returns (vcpu: Vcpu)
    ensures fresh(vcpu) && fresh(vcpu.intrPending) && vcpu.Valid() && vcpu.entry == Nothing && !vcpu.pageFault
    ensures vcpu.Pending() == {32} && !vcpu.eventInjected && !vcpu.IsBlocked()
  {
    vcpu := new Vcpu(32);
    vcpu.SetFlags(true);
    vcpu.Raise(32);
  }

  lemma NoVector(words: seq<Word>, i: int)
    requires Bitmap(words) && -1 <= i < WORDS && forall j :: i < j < WORDS ==> words[j] == {}
    ensures i < 0 ==> Vectors(words) == {}
  {
  }

  lemma HighestVector(words: seq<Word>, i: nat, offset: nat)
    requires Bitmap(words) && i < WORDS && offset in words[i]
    requires forall k :: k in words[i] ==> k <= offset
    requires forall j :: i < j < WORDS ==> words[j] == {}
    ensures i * BITS + offset in Vectors(words)
    ensures forall u :: u in Vectors(words) ==> u <= i * BITS + offset
  {
    var v := i * BITS + offset;
    assert v / BITS == i && v % BITS == offset;
  }
}
