/** The bounded circular line buffer behind each pane. */
module Scrollback {
  const DEFAULT_CAP := 10_000
  const MAX_CAP := 100_000

  function EffectiveCap(cap: int): (c: nat)
    ensures 1 <= c <= MAX_CAP
    ensures 1 <= cap <= MAX_CAP ==> c == cap
    ensures cap <= 0 ==> c == 10_000
    ensures cap > MAX_CAP ==> c == MAX_CAP
  {
    if cap <= 0 then DEFAULT_CAP else if cap > MAX_CAP then MAX_CAP else cap
  }

  /** The last `n` elements, or all of them when there are fewer. */
  function LastN<T>(s: seq<T>, n: nat): (r: seq<T>)
    ensures |r| <= n && |r| <= |s|
  {
    if |s| <= n then s else s[|s| - n..]
  }

  /** There are as many as asked for or as there are, and nothing stood behind them. */
  lemma LastNIs<T>(s: seq<T>, n: nat)
    ensures var r := LastN(s, n); |r| == (if |s| < n then |s| else n) && s == s[..|s| - |r|] + r
  {}

  /** Position `i` places after `head` in a circle of `cap`. */
  function Slot(head: nat, i: nat, cap: nat): (k: nat)
    requires head < cap && i <= cap
    ensures k == if head + i < cap then head + i else head + i - cap
  {
    Wrap(head + i, cap);
    (head + i) % cap
  }

  lemma Wrap(x: nat, n: nat)
    requires 0 < n && x < 2 * n
    ensures x % n == if x < n then x else x - n
  {
    if x >= n { assert x % n == (x - n) % n; }
  }

  class ScrollbackBuffer {
    var buf: array<string>
    var head: nat // index of the oldest entry
    var size: nat // number of stored lines
    const cap: nat

    ghost predicate Valid()
      reads this, buf
    {
      buf.Length == cap && 1 <= cap && head < cap && size <= cap
    }

    ghost function At(i: nat): string
      requires Valid() && i < size
      reads this, buf
    {
      buf[Slot(head, i, cap)]
    }

    /** The stored lines, oldest first. */
    ghost function Contents(): (s: seq<string>)
      requires Valid()
      reads this, buf
      ensures |s| == size <= cap && forall i :: 0 <= i < size ==> s[i] == At(i)
    {
      seq(size, i requires 0 <= i < size && Valid() reads this, buf => At(i))
    }

    constructor (cap: int)
      ensures Valid() && fresh(buf) && this.cap == EffectiveCap(cap) && Contents() == []
    {
      this.cap := EffectiveCap(cap);
      buf := new string[EffectiveCap(cap)](_ => "");
      head, size := 0, 0;
    }

    method Append(line: string)
      requires Valid()
      modifies this`head, this`size, buf
      ensures Valid() && Contents() == LastN(old(Contents()) + [line], cap)
    {
      hide Slot, LastN;
      ghost var before := Contents();
      LastNOneMore(before, line, cap);
      if size < cap {
        buf[Slot(head, size, cap)] := line;
        size := size + 1;
        assert Contents() == before + [line];
        return;
      }
      buf[head] := line;
      head := Slot(head, 1, cap);
      assert Contents() == before[1..] + [line];
    }

    method Lines() returns (out: seq<string>)
      requires Valid()
      ensures out == Contents()
    {
      hide Slot;
      if size == 0 { return []; }
      var lines := new string[size](_ => "");
      for i := 0 to size
        invariant forall j :: 0 <= j < i ==> lines[j] == Contents()[j]
      {
        lines[i] := buf[Slot(head, i, cap)];
      }
      out := lines[..];
    }

    method Clear()
      requires Valid()
      modifies this`head, this`size
      ensures Valid() && Contents() == []
    {
      head, size := 0, 0;
    }
  }

  // ------------------------------------------------------------------ whole runs

  datatype Event = Append(line: string) | Clear

  /** What a run of calls leaves in a buffer of capacity `cap`, call by call. */
  function Replay(es: seq<Event>, cap: nat): seq<string> {
    if es == [] then []
    else
      match es[|es| - 1]
      case Append(line) => LastN(Replay(es[..|es| - 1], cap) + [line], cap)
      case Clear => []
  }

  /** The lines appended since the last Clear. */
  function SinceClear(es: seq<Event>): seq<string> {
    if es == [] then []
    else
      match es[|es| - 1]
      case Append(line) => SinceClear(es[..|es| - 1]) + [line]
      case Clear => []
  }

  /** Whatever was appended and cleared, the buffer holds the last `cap` lines appended since the last Clear. */
  lemma {:induction false} BufferHoldsTheLastLines(es: seq<Event>, cap: nat)
    requires 1 <= cap
    ensures Replay(es, cap) == LastN(SinceClear(es), cap)
  {
    if es != [] && es[|es| - 1].Append? {
      var init, line := es[..|es| - 1], es[|es| - 1].line;
      BufferHoldsTheLastLines(init, cap);
      LastNStep(SinceClear(init), line, cap);
    }
  }

  lemma LastNOneMore<T>(s: seq<T>, x: T, n: nat)
    requires |s| <= n && n > 0
    ensures LastN(s + [x], n) == (if |s| < n then s + [x] else s[1..] + [x])
  {}

  lemma LastNStep<T>(s: seq<T>, x: T, n: nat)
    requires 1 <= n
    ensures LastN(LastN(s, n) + [x], n) == LastN(s + [x], n)
  {}

  lemma {:induction false} LastNAppend<T>(s: seq<T>, t: seq<T>, n: nat)
    ensures LastN(LastN(s, n) + t, n) == LastN(s + t, n)
  {}
}
