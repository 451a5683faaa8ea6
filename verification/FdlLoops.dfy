/**
 The descriptor-leak loop programs (bc/fdl-loop-break/fdl_loop_break.c) over linked lists of
 any length, with an open-descriptor table and any pattern of socket results.
 */
module FdlLoops {

  /** A pointer: null, the constant 1 that stands for "connected", or a node. */
  datatype Ptr = Null | Sentinel | To(node: Node)

  class Node {
    var next: Ptr

    constructor (next: Ptr)
      ensures this.next == next
    {
      this.next := next;
    }
  }

  class Out {
    var fd: int

    constructor ()
    {
      fd := -1;
    }
  }

  /** The descriptors of a table below `n`. */
  function Below(table: set<int>, n: nat): set<int> {
    set k | k in table && 0 <= k < n
  }

  /** The open descriptors and the oracle that decides which socket calls succeed. */
  class Kernel {
    var open: set<int>
    var calls: nat
    const succeeds: nat -> bool

    constructor (open: set<int>, succeeds: nat -> bool)
      ensures this.open == open && this.succeeds == succeeds && calls == 0
    {
      this.open, this.succeeds, calls := open, succeeds, 0;
    }

    /** socket(): the lowest unused descriptor, or a failure. */
    method Socket() returns (fd: int)
      modifies this
      ensures calls == old(calls) + 1
      ensures if succeeds(old(calls)) then 0 <= fd && fd !in old(open) && open == old(open) + {fd}
              else fd < 0 && open == old(open)
      ensures forall lower :: 0 <= lower < fd ==> lower in old(open)
    {
      var answer := succeeds(calls);
      calls := calls + 1;
      if !answer {
        return -1;
      }
      fd := 0;
      while fd in open
        invariant 0 <= fd && open == old(open) && forall lower :: 0 <= lower < fd ==> lower in open
        decreases open - Below(open, fd)
      {
        assert fd in open - Below(open, fd) && fd !in open - Below(open, fd + 1);
        fd := fd + 1;
      }
      open := open + {fd};
    }

    method Close(fd: int)
      modifies this`open
      ensures open == old(open) - {fd}
    {
      open := open - {fd};
    }
  }

  /** The indirect call of the C code: it is given a descriptor and may close that one only. */
  class Callback {
    const closes: bool
    var given: seq<int>

    constructor (closes: bool)
      ensures this.closes == closes && given == []
    {
      this.closes, given := closes, [];
    }

    method Call(k: Kernel, fd: int)
      modifies this`given, k`open
      ensures given == old(given) + [fd]
      ensures k.open == if closes then old(k.open) - {fd} else old(k.open)
    {
      given := given + [fd];
      if closes {
        k.Close(fd);
      }
    }
  }

  /** `head` leads through the nodes of `chain`, in order, to `end`. */
  ghost predicate IsChain(head: Ptr, chain: seq<Node>, end: Ptr)
    reads chain
  {
    && !end.To?
    && head == Cursor(chain, end, 0)
    && forall i {:trigger chain[i].next} :: 0 <= i < |chain| ==> chain[i].next == Cursor(chain, end, i + 1)
  }

  /** The pointer a walk holds after `i` nodes. */
  ghost function Cursor(chain: seq<Node>, end: Ptr, i: nat): Ptr {
    if i < |chain| then To(chain[i]) else end
  }

  /** The `n` socket calls from call number `from` on all succeed. */
  ghost predicate AllSucceed(succeeds: nat -> bool, from: nat, n: nat) {
    forall c :: from <= c < from + n ==> succeeds(c)
  }

  /** Socket call `from + i` is the first of these to fail. */
  ghost predicate FailsFirstAt(succeeds: nat -> bool, from: nat, i: nat) {
    AllSucceed(succeeds, from, i) && !succeeds(from + i)
  }

  /** A walk over `n` nodes makes a socket call at each, up to the first that fails. */
  ghost predicate IsWalk(succeeds: nat -> bool, from: nat, n: nat, upto: nat) {
    || (upto == from + n && AllSucceed(succeeds, from, n))
    || (from < upto <= from + n && FailsFirstAt(succeeds, from, upto - 1 - from))
  }

  // ---------- the two that do not leak ----------

  /** How the connect loop ends: at a failed socket call, at the end of the list, or connected. */
  datatype Ending = SocketFailed | ListEnded | Connected

  /** The loop of lines 15-25 and 81-91.  It is left connected exactly when the list is nonempty,
      ends in the sentinel and every socket call along it succeeds, and then it has opened exactly
      one descriptor; otherwise it has opened none. */
  method ConnectLoop(head: Ptr, k: Kernel, ghost chain: seq<Node>, ghost end: Ptr) returns (ending: Ending, fd: int)
    requires IsChain(head, chain, end) && head != Sentinel
    modifies k
    ensures ending == Connected <==> chain != [] && end.Sentinel? && AllSucceed(k.succeeds, old(k.calls), |chain|)
    ensures ending == SocketFailed ==>
              old(k.calls) < k.calls <= old(k.calls) + |chain| &&
              FailsFirstAt(k.succeeds, old(k.calls), k.calls - 1 - old(k.calls))
    ensures ending != SocketFailed ==> k.calls == old(k.calls) + |chain|
    ensures IsWalk(k.succeeds, old(k.calls), |chain|, k.calls)
    ensures ending == Connected ==> 0 <= fd && fd !in old(k.open) && k.open == old(k.open) + {fd}
    ensures ending != Connected ==> k.open == old(k.open)
  {
    var next := head;
    fd := -1;
    ghost var i: nat := 0;
    while next != Null
      invariant IsChain(head, chain, end) && i <= |chain| && next == Cursor(chain, end, i)
      invariant i == |chain| ==> end.Null?
      invariant AllSucceed(k.succeeds, old(k.calls), i) && k.calls == old(k.calls) + i
      invariant k.open == old(k.open)
      decreases |chain| - i
    {
      fd := k.Socket();
      if fd < 0 { return SocketFailed, fd; }
      if next.node.next == Sentinel { return Connected, fd; }
      k.Close(fd);
      next := next.node.next;
      i := i + 1;
    }
    return ListEnded, fd;
  }

  /** 0 is returned exactly when the list is nonempty, ends in the sentinel and every socket
      call along it succeeds; then the one new open descriptor is the one stored. */
  method NotALeak(head: Ptr, o: Out, k: Kernel, ghost chain: seq<Node>, ghost end: Ptr) returns (r: int)
    requires IsChain(head, chain, end) && head != Sentinel
    modifies o, k
    ensures r == 0 || r == -1
    ensures IsWalk(k.succeeds, old(k.calls), |chain|, k.calls)
    ensures r == 0 <==> chain != [] && end.Sentinel? && AllSucceed(k.succeeds, old(k.calls), |chain|)
    ensures r == 0 ==> o.fd !in old(k.open) && k.open == old(k.open) + {o.fd}
    ensures r != 0 ==> k.open == old(k.open) && o.fd == old(o.fd)
  {
    var ending, fd := ConnectLoop(head, k, chain, end);
    if ending == SocketFailed { return -1; }
    if ending == ListEnded { return -1; }
    o.fd := fd;
    return 0;
  }

  /** The same with a hand-over: on 0 the callback was given the one new descriptor, which is
      open unless the callback closed it. */
  method SavedByCallback(head: Ptr, cb: Callback, k: Kernel, ghost chain: seq<Node>, ghost end: Ptr) returns (r: int)
    requires IsChain(head, chain, end) && head != Sentinel
    modifies cb, k
    ensures r == 0 || r == -1
    ensures IsWalk(k.succeeds, old(k.calls), |chain|, k.calls)
    ensures r == 0 <==> chain != [] && end.Sentinel? && AllSucceed(k.succeeds, old(k.calls), |chain|)
    ensures r == 0 ==> exists fd :: cb.given == old(cb.given) + [fd] && 0 <= fd && fd !in old(k.open)
                         && k.open == old(k.open) + if cb.closes then {} else {fd}
    ensures r != 0 ==> k.open == old(k.open) && cb.given == old(cb.given)
  {
    var ending, fd := ConnectLoop(head, k, chain, end);
    if ending == SocketFailed { return -1; }
    if ending == ListEnded { return -1; }
    cb.Call(k, fd);
    return 0;
  }

  // ---------- the three that do ----------

  /** Leaks exactly one descriptor when `late` is set, the list is nonempty and the first socket
      call succeeds, and none otherwise; never succeeds. */
  method RealLeakOnBreak(head: Ptr, o: Out, late: bool, k: Kernel, ghost chain: seq<Node>, ghost end: Ptr)
    returns (r: int)
    requires IsChain(head, chain, end) && (!late ==> end.Null?)
    modifies o, k
    ensures r == -1 && o.fd == old(o.fd)
    ensures if late then k.calls == old(k.calls) + if head == Null then 0 else 1
            else IsWalk(k.succeeds, old(k.calls), |chain|, k.calls)
    ensures if late && head != Null && k.succeeds(old(k.calls))
            then exists fd :: 0 <= fd && fd !in old(k.open) && k.open == old(k.open) + {fd}
            else k.open == old(k.open)
  {
    var next := head;
    var fd: int := *;
    ghost var i: nat := 0;
    while next != Null
      invariant IsChain(head, chain, end) && i <= |chain|
      invariant next == Cursor(chain, end, i)
      invariant late ==> i == 0
      invariant k.calls == old(k.calls) + i && k.open == old(k.open) && o.fd == old(o.fd)
      invariant AllSucceed(k.succeeds, old(k.calls), i)
      decreases |chain| - i
    {
      fd := k.Socket();
      if fd < 0 { return -1; }
      if late { break; }
      k.Close(fd);
      next := next.node.next;
      i := i + 1;
    }
    if next == Null { return -1; }
    if late { return -1; }
    assert false; // storing the descriptor and returning 0 is never reached
  }

  /** The unrelated call is no release: the descriptor leaks unless it is 0, the very number the
      callback is given, and the callback closes it. */
  method LeakAfterUnrelatedCall(head: Ptr, o: Out, cb: Callback, late: bool, k: Kernel,
                                ghost chain: seq<Node>, ghost end: Ptr) returns (r: int)
    requires IsChain(head, chain, end) && (!late ==> end.Null?)
    modifies o, cb, k
    ensures r == -1 && o.fd == old(o.fd)
    ensures if late then k.calls == old(k.calls) + if head == Null then 0 else 1
            else IsWalk(k.succeeds, old(k.calls), |chain|, k.calls)
    ensures if late && head != Null && k.succeeds(old(k.calls))
            then cb.given == old(cb.given) + [0] &&
                 exists fd :: 0 <= fd && fd !in old(k.open) && (fd == 0 <==> 0 !in old(k.open))
                   && k.open == old(k.open) + {fd} - if cb.closes then {0} else {}
            else cb.given == old(cb.given) && k.open == old(k.open)
  {
    var next := head;
    var fd: int := *;
    ghost var i: nat := 0;
    while next != Null
      invariant IsChain(head, chain, end) && i <= |chain|
      invariant next == Cursor(chain, end, i)
      invariant late ==> i == 0
      invariant k.calls == old(k.calls) + i && k.open == old(k.open)
      invariant AllSucceed(k.succeeds, old(k.calls), i)
      invariant o.fd == old(o.fd) && cb.given == old(cb.given)
      decreases |chain| - i
    {
      fd := k.Socket();
      if fd < 0 { return -1; }
      if late { break; }
      k.Close(fd);
      next := next.node.next;
      i := i + 1;
    }
    if next == Null { return -1; }
    cb.Call(k, 0);
    if late { return -1; }
    assert false; // storing the descriptor and returning 0 is never reached
  }

  /** Leaks exactly one descriptor when the list is nonempty and its single socket call succeeds. */
  method RealLeakOnNormalExit(head: Ptr, o: Out, k: Kernel, ghost chain: seq<Node>, ghost end: Ptr) returns (r: int)
    requires IsChain(head, chain, end) && end.Null?
    modifies o, k
    ensures r == -1 && o.fd == old(o.fd)
    ensures k.calls == old(k.calls) + if head == Null then 0 else 1
    ensures if head != Null && k.succeeds(old(k.calls))
            then exists fd :: 0 <= fd && fd !in old(k.open) && k.open == old(k.open) + {fd}
            else k.open == old(k.open)
  {
    var next := head;
    var fd := -1;
    ghost var i: nat := 0;
    while next != Null
      invariant IsChain(head, chain, end) && i <= |chain|
      invariant next == Cursor(chain, end, i)
      invariant o.fd == old(o.fd)
      invariant if i == 0 then fd < 0 && k.open == old(k.open) && k.calls == old(k.calls)
                else k.calls == old(k.calls) + 1 && k.succeeds(old(k.calls)) && 0 <= fd
                     && fd !in old(k.open) && k.open == old(k.open) + {fd}
      decreases |chain| - i
    {
      if fd < 0 {
        fd := k.Socket();
      }
      if fd < 0 { return -1; }
      next := next.node.next;
      i := i + 1;
    }
    if next == Null { return -1; }
    assert false; // storing the descriptor and returning 0 is never reached
  }
}
