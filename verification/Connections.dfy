/** The callback chain of a TCP handler, and how often handling closes the descriptor of the connection. */
module Connections {

  const PROCEED: int := 0
  const INTERRUPT_WO_CLOSE: int := 1

  /** What a callback may do to the close state of the connection. */
  datatype Act = Fin | SetAutoClose(on: bool)

  /** A callback that returns: what it does, and its code. */
  datatype Callback = Callback(acts: seq<Act>, code: int)

  /** The close state, and how often the descriptor has been closed. */
  datatype Link = Link(closed: bool, autoClose: bool, closes: nat)

  const OPENED: Link := Link(false, true, 0)

  function Closed(l: Link): Link {
    Link(true, l.autoClose, l.closes + 1)
  }

  function Done(l: Link, a: Act): Link {
    match a
    case Fin => Closed(l)
    case SetAutoClose(on) => l.(autoClose := on)
  }

  function DoneAll(l: Link, acts: seq<Act>): Link
    decreases |acts|
  {
    if acts == [] then l else DoneAll(Done(l, acts[0]), acts[1..])
  }

  function RanThrough(l: Link, chain: seq<Callback>): Link
    decreases |chain|
  {
    if chain == [] then l
    else
      var m := DoneAll(l, chain[0].acts);
      if chain[0].code == PROCEED then RanThrough(m, chain[1..])
      else if chain[0].code == INTERRUPT_WO_CLOSE then m.(autoClose := false)
      else Closed(m)
  }

  function Destroyed(l: Link): Link {
    if l.autoClose && !l.closed then Closed(l) else l
  }

  class Connection {
    var closed: bool
    var autoClose: bool
    ghost var closes: nat

    ghost function View(): Link
      reads this
    {
      Link(closed, autoClose, closes)
    }

    constructor ()
      ensures View() == OPENED
    {
      closed, autoClose, closes := false, true, 0;
    }

    method Finish()
      modifies this
      ensures View() == Closed(old(View()))
    {
      closed := true;
      closes := closes + 1;
    }

    method SwitchAutoClose(on: bool)
      modifies this`autoClose
      ensures View() == old(View()).(autoClose := on)
    {
      autoClose := on;
    }

    /** A callback at work on the connection. */
    method Call(cb: Callback) returns (code: int)
      modifies this
      ensures View() == DoneAll(old(View()), cb.acts) && code == cb.code
    {
      for i := 0 to |cb.acts|
        invariant DoneAll(View(), cb.acts[i..]) == DoneAll(old(View()), cb.acts)
      {
        assert cb.acts[i..][1..] == cb.acts[i + 1..];
        match cb.acts[i]
        case Fin => Finish();
        case SetAutoClose(on) => SwitchAutoClose(on);
      }
      code := cb.code;
    }

    /** The destructor. */
    method Destroy()
      modifies this
      ensures View() == Destroyed(old(View()))
    {
      if autoClose && !closed {
        Finish();
      }
    }
  }

  class TcpHandler {
    const fnChain: seq<Callback>

    constructor (chain: seq<Callback>)
      ensures fnChain == chain
    {
      fnChain := chain;
    }

    /** Runs the callbacks up to the first whose code is not zero; `ran` of them run. */
    method RunCbFunc(conn: Connection) returns (ran: nat)
      modifies conn
      ensures conn.View() == RanThrough(old(conn.View()), fnChain)
      ensures ran <= |fnChain| && (forall i | 0 <= i < ran - 1 :: fnChain[i].code == 0)
      ensures ran < |fnChain| ==> ran > 0 && fnChain[ran - 1].code != 0
    {
      ran := 0;
      while ran < |fnChain|
        invariant ran <= |fnChain| && forall i | 0 <= i < ran :: fnChain[i].code == PROCEED
        invariant RanThrough(conn.View(), fnChain[ran..]) == RanThrough(old(conn.View()), fnChain)
      {
        assert fnChain[ran..][1..] == fnChain[ran + 1..];
        var code := conn.Call(fnChain[ran]);
        ran := ran + 1;
        if code == PROCEED {
          continue;
        }
        if code == INTERRUPT_WO_CLOSE {
          conn.SwitchAutoClose(false);
        } else {
          conn.Finish();
        }
        return;
      }
    }

    /** Handling a connection: it is built, the chain runs, it is destroyed. */
    method DoHandle() returns (conn: Connection)
      ensures fresh(conn) && conn.View() == Destroyed(RanThrough(OPENED, fnChain))
    {
      conn := new Connection();
      var ran := RunCbFunc(conn);
      conn.Destroy();
    }
  }

  // ------------------------------------------------------------------ how often it closes

  /** The first code that is not zero, or zero. */
  function FirstCode(chain: seq<Callback>): int {
    if chain == [] then 0 else if chain[0].code != 0 then chain[0].code else FirstCode(chain[1..])
  }

  function FinsOf(acts: seq<Act>): nat {
    if acts == [] then 0 else (if acts[0] == Fin then 1 else 0) + FinsOf(acts[1..])
  }

  /** How often the callbacks that run close the connection themselves. */
  function Fins(chain: seq<Callback>): nat {
    if chain == [] then 0
    else FinsOf(chain[0].acts) + if chain[0].code == 0 then Fins(chain[1..]) else 0
  }

  function SettingOf(on: bool, acts: seq<Act>): bool
    decreases |acts|
  {
    if acts == [] then on
    else SettingOf(match acts[0] case Fin => on case SetAutoClose(b) => b, acts[1..])
  }

  /** The close-automatically setting that the callbacks that run leave. */
  function Setting(on: bool, chain: seq<Callback>): bool
    decreases |chain|
  {
    if chain == [] then on
    else
      var next := SettingOf(on, chain[0].acts);
      if chain[0].code == 0 then Setting(next, chain[1..]) else next
  }

  lemma {:induction false} ActsCounted(l: Link, acts: seq<Act>)
    ensures var m := DoneAll(l, acts);
            && m.closes == l.closes + FinsOf(acts)
            && m.closed == (l.closed || FinsOf(acts) > 0)
            && m.autoClose == SettingOf(l.autoClose, acts)
    decreases |acts|
  {
    if acts != [] {
      ActsCounted(Done(l, acts[0]), acts[1..]);
    }
  }

  lemma {:induction false} ChainCounted(l: Link, chain: seq<Callback>)
    ensures var m, code := RanThrough(l, chain), FirstCode(chain);
            if code == PROCEED || code == INTERRUPT_WO_CLOSE then
              && m.closes == l.closes + Fins(chain)
              && m.closed == (l.closed || Fins(chain) > 0)
              && m.autoClose == (code == PROCEED && Setting(l.autoClose, chain))
            else
              m.closes == l.closes + Fins(chain) + 1 && m.closed
    decreases |chain|
  {
    if chain != [] {
      ActsCounted(l, chain[0].acts);
      ChainCounted(DoneAll(l, chain[0].acts), chain[1..]);
    }
  }

  function Handled(chain: seq<Callback>): nat {
    Destroyed(RanThrough(OPENED, chain)).closes
  }

  /** The descriptor is closed once for every time a callback closes it, once more for a code that asks for it, and
      once by the destructor if nobody has closed it and closing was left to it. */
  lemma {:induction false} CloseCount(chain: seq<Callback>)
    ensures var code := FirstCode(chain);
            Handled(chain) == Fins(chain)
              + (if code != 0 && code != 1 then 1 else 0)
              + (if code == 0 && Fins(chain) == 0 && Setting(true, chain) then 1 else 0)
  {
    ChainCounted(OPENED, chain);
  }

  predicate HandsOff(chain: seq<Callback>) {
    forall i | 0 <= i < |chain| :: chain[i].acts == []
  }

  lemma {:induction false} HandsOffCounts(chain: seq<Callback>)
    requires HandsOff(chain)
    ensures Fins(chain) == 0 && Setting(true, chain)
    decreases |chain|
  {
    if chain != [] {
      HandsOffCounts(chain[1..]);
    }
  }

  /** A chain that leaves the close state alone closes the descriptor exactly once,
      or not at all when its first code that is not zero says so. */
  lemma {:induction false} ClosedOnce(chain: seq<Callback>)
    requires HandsOff(chain)
    ensures Handled(chain) == if FirstCode(chain) == 1 then 0 else 1
  {
    HandsOffCounts(chain);
    CloseCount(chain);
  }

  /** Closing in a callback and asking for it in the code closes the descriptor twice. */
  lemma ClosedTwice(code: int)
    requires code != PROCEED && code != INTERRUPT_WO_CLOSE
    ensures Handled([Callback([Fin], code)]) == 2
  {
    var cb := Callback([Fin], code);
    assert FinsOf([Fin]) == 1 + FinsOf([]) by { assert [Fin][1..] == []; }
    assert Fins([cb]) == FinsOf(cb.acts) && FirstCode([cb]) == code;
    CloseCount([cb]);
  }
}
