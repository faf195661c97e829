/** WriterTask: the single consumer that reassembles out-of-order messages into
    output lines in ascending index order. The pure functions below describe one
    merge, one prefix flush and a whole run; the class WriterTask does the same
    work in place on its `pending` map and `nextToWrite` cursor. */
module Writer {
  import opened Wrappers
  import opened JavaText
  import opened Messages
  import Channel

  // ---------------------------------------------------------------------------
  // Conflict resolution

  /** WriterTask.priority */
  function Priority(t: Type): nat
  {
    match t
    case RESULT => 4
    case RAW_ERROR => 3
    case ERROR_MSG => 2
    case SKIP => 1
    case POISON => 0
  }

  /** Integer.compare */
  function IntCompare(x: int, y: int): int
  {
    if x < y then -1 else if x == y then 0 else 1
  }

  /** Comparator.comparingInt(priority).reversed().thenComparingInt(index):
      reversed() swaps the two priorities being compared. */
  function CompareAsWritten(a: Msg, b: Msg): int
  {
    var byPriority := IntCompare(Priority(b.kind), Priority(a.kind));
    if byPriority != 0 then byPriority else IntCompare(a.index, b.index)
  }

  /** WriterTask.prefer(a, b), called by Map.merge with `a` the entry already in
      `pending` and `b` the message just taken. Because of the reversal it keeps
      the LOWER priority, and the existing entry on a tie. */
  function Prefer(a: Msg, b: Msg): (r: Msg)
    ensures r == a || r == b
    ensures a.index == b.index ==> r == (if Priority(a.kind) <= Priority(b.kind) then a else b)
  {
    if CompareAsWritten(a, b) >= 0 then a else b
  }

  /** The comparator without the reversal, which is what the priority table in
      WriterTask.priority calls for. */
  function CompareIntended(a: Msg, b: Msg): int
  {
    var byPriority := IntCompare(Priority(a.kind), Priority(b.kind));
    if byPriority != 0 then byPriority else IntCompare(a.index, b.index)
  }

  /** The corrected preference: keeps the HIGHER priority, the existing entry on a tie. */
  function PreferIntended(a: Msg, b: Msg): (r: Msg)
    ensures r == a || r == b
    ensures a.index == b.index ==> r == (if Priority(a.kind) >= Priority(b.kind) then a else b)
  {
    if CompareIntended(a, b) >= 0 then a else b
  }

  /** Which preference a merge uses: the program's, or the corrected one. Every
      ordering property below is proved for both. */
  datatype Rule = AsWritten | Intended

  function Choose(rule: Rule, a: Msg, b: Msg): (r: Msg)
    ensures r == a || r == b
  {
    match rule
    case AsWritten => Prefer(a, b)
    case Intended => PreferIntended(a, b)
  }

  /** ConcurrentSkipListMap.merge(m.index, m, prefer) */
  function Merge(rule: Rule, pending: map<int, Msg>, m: Msg): map<int, Msg>
  {
    pending[m.index := if m.index in pending then Choose(rule, pending[m.index], m) else m]
  }

  // ---------------------------------------------------------------------------
  // Rendering

  /** Java string concatenation renders a null reference as "null". */
  function TextOf(s: Option<string>): string
  {
    match s
    case Some(t) => t
    case None => "null"
  }

  function NumberOf(f: Option<int>): string
  {
    match f
    case Some(v) => IntToString(v)
    case None => "null"
  }

  /** WriterTask.writeOne: the output line a message produces, if any. */
  function Render(m: Msg): Option<string>
  {
    match m.kind
    case RESULT => Some(TextOf(m.value) + " = " + NumberOf(m.factorial))
    case RAW_ERROR => Some(TextOf(m.rawLine))
    case ERROR_MSG => Some(TextOf(m.errorMsg))
    case SKIP => None
    case POISON => None
  }

  /** What each factory's message renders to. */
  lemma RenderFactories(i: int, v: Int32, f: int, line: string)
    ensures Render(Value(i, v, f)) == Some(IntToString(v) + " = " + IntToString(f))
    ensures Render(Raw(i, line)) == Some(line)
    ensures Render(Msg(i, ERROR_MSG, None, None, None, Some(line))) == Some(line)
    ensures Render(Skip(i)) == None && Render(Poison()) == None
  {
  }

  /** The lines that writing `ms` in order appends to the output. */
  function Lines(ms: seq<Msg>): seq<string>
  {
    if ms == [] then []
    else
      var rest := Lines(ms[..|ms| - 1]);
      match Render(ms[|ms| - 1])
      case Some(line) => rest + [line]
      case None => rest
  }

  lemma {:induction false} LinesAppend(a: seq<Msg>, b: seq<Msg>)
    ensures Lines(a + b) == Lines(a) + Lines(b)
  {
    if b != [] {
      var c := a + b;
      assert c[..|c| - 1] == a + b[..|b| - 1];
      LinesAppend(a, b[..|b| - 1]);
    } else {
      assert a + b == a;
    }
  }

  // ---------------------------------------------------------------------------
  // The reassembly state and the prefix flush

  /** `pending` and `next` are the program's variables; `written` lists every
      message handed to writeOne, in order. */
  datatype State = State(pending: map<int, Msg>, next: nat, written: seq<Msg>)

  function Init(): State
  {
    State(map[], 0, [])
  }

  /** Every key holds a message with that index, and the messages written so far
      are those of indices 0, 1, ..., next - 1, each once and in this order. */
  predicate Ordered(s: State)
  {
    && |s.written| == s.next
    && (forall k :: 0 <= k < |s.written| ==> s.written[k].index == k)
    && (forall k :: k in s.pending ==> s.pending[k].index == k)
  }

  /** Between messages the flush is maximal: nothing waits at the cursor. */
  predicate Settled(s: State)
  {
    Ordered(s) && s.next !in s.pending
  }

  /** WriterTask.flushContiguousPrefix: while an entry exists at the cursor,
      remove it, write it and advance. */
  function Flush(s: State): (r: State)
    decreases |s.pending|
  {
    if s.next in s.pending then
      var rest := s.pending - {s.next};
      assert |rest| < |s.pending| by {
        assert rest.Keys == s.pending.Keys - {s.next};
        assert |rest.Keys| < |s.pending.Keys|;
      }
      Flush(State(rest, s.next + 1, s.written + [s.pending[s.next]]))
    else s
  }

  /** The flush is maximal and removes exactly the contiguous run of entries at
      next, next + 1, ...: the cursor advances by the number of entries removed,
      each removed entry is written, in key order, and nothing else changes. */
  lemma {:induction false} FlushSpec(s: State)
    decreases |s.pending|
    ensures s.next <= Flush(s).next && Flush(s).next !in Flush(s).pending
    ensures |Flush(s).written| == |s.written| + (Flush(s).next - s.next)
    ensures Flush(s).written[..|s.written|] == s.written
    ensures forall k :: s.next <= k < Flush(s).next ==>
              k in s.pending && Flush(s).written[|s.written| + (k - s.next)] == s.pending[k]
    ensures forall k :: k in Flush(s).pending <==> k in s.pending && !(s.next <= k < Flush(s).next)
    ensures forall k :: k in Flush(s).pending ==> Flush(s).pending[k] == s.pending[k]
  {
    if s.next in s.pending {
      var rest := s.pending - {s.next};
      assert |rest| < |s.pending| by {
        assert rest.Keys == s.pending.Keys - {s.next};
        assert |rest.Keys| < |s.pending.Keys|;
      }
      var t := State(rest, s.next + 1, s.written + [s.pending[s.next]]);
      var r := Flush(t);
      assert Flush(s) == r;
      FlushSpec(t);
      assert r.written[..|s.written|] == r.written[..|t.written|][..|s.written|];
      forall k | s.next <= k < r.next
        ensures k in s.pending && r.written[|s.written| + (k - s.next)] == s.pending[k]
      {
        if k == s.next {
          assert r.written[|s.written|] == r.written[..|t.written|][|s.written|];
        } else {
          assert k in rest;
        }
      }
    }
  }

  /** Flushing keeps the ordering invariant and leaves the state settled. */
  lemma FlushSettles(s: State)
    requires Ordered(s)
    ensures Settled(Flush(s))
  {
    var r := Flush(s);
    FlushSpec(s);
    forall k | 0 <= k < |r.written| ensures r.written[k].index == k {
      if k < |s.written| {
        assert r.written[k] == r.written[..|s.written|][k];
      } else {
        var key := s.next + (k - |s.written|);
        assert r.written[k] == s.pending[key];
      }
    }
  }

  /** One turn of WriterTask.run for a message that is not POISON. */
  function Step(rule: Rule, s: State, m: Msg): State
  {
    Flush(State(Merge(rule, s.pending, m), s.next, s.written))
  }

  /** A message for an index the cursor has already passed is stored in
      `pending` and nothing is written: the flush cannot reach it. */
  lemma LateMessageNeverWritten(rule: Rule, s: State, m: Msg)
    requires Settled(s) && m.index < s.next
    ensures var r := Step(rule, s, m);
      && Settled(r) && r.next == s.next && r.written == s.written
      && m.index in r.pending && r.pending[m.index] in {m, if m.index in s.pending then s.pending[m.index] else m}
  {
    var merged := Merge(rule, s.pending, m);
    assert s.next !in merged;
    assert Step(rule, s, m) == State(merged, s.next, s.written);
  }

  /** The messages the writer handles: those before the first POISON. */
  function BeforePoison(ms: seq<Msg>): (r: seq<Msg>)
    ensures |r| <= |ms| && r == ms[..|r|]
    ensures forall k :: 0 <= k < |r| ==> !r[k].IsPoison()
    ensures |r| < |ms| ==> ms[|r|].IsPoison()
  {
    if ms == [] || ms[0].IsPoison() then [] else [ms[0]] + BeforePoison(ms[1..])
  }

  /** The messages left in the channel after the writer stops. */
  function AfterPoison(ms: seq<Msg>): seq<Msg>
  {
    if ms == [] then [] else if ms[0].IsPoison() then ms[1..] else AfterPoison(ms[1..])
  }

  /** WriterTask.run over the messages the channel delivers, in delivery order. */
  function Consume(rule: Rule, s: State, ms: seq<Msg>): State
    decreases |ms|
  {
    if ms == [] || ms[0].IsPoison() then s else Consume(rule, Step(rule, s, ms[0]), ms[1..])
  }

  function Indices(ms: seq<Msg>): set<int>
  {
    set j | 0 <= j < |ms| :: ms[j].index
  }

  /** What the writer knows after handling the messages `seen`: it is settled,
      nothing it wrote or holds was invented, and at or beyond the cursor an index
      is pending exactly when some message for it has arrived. */
  ghost predicate Tracks(s: State, seen: seq<Msg>)
  {
    && Settled(s)
    && (forall k :: 0 <= k < |s.written| ==> s.written[k] in seen)
    && (forall k :: k in s.pending ==> s.pending[k] in seen)
    && (forall k :: k >= s.next ==> (k in s.pending <==> k in Indices(seen)))
  }

  lemma {:induction false} StepTracks(rule: Rule, s: State, seen: seq<Msg>, m: Msg)
    requires Tracks(s, seen)
    ensures Tracks(Step(rule, s, m), seen + [m])
    ensures s.next <= Step(rule, s, m).next
    ensures Step(rule, s, m).written[..|s.written|] == s.written
  {
    var seen' := seen + [m];
    var merged := State(Merge(rule, s.pending, m), s.next, s.written);
    assert Ordered(merged) by {
      if m.index in s.pending {
        var c := Choose(rule, s.pending[m.index], m);
        assert c.index == m.index;
      }
    }
    FlushSettles(merged);
    FlushSpec(merged);
    assert Indices(seen') == Indices(seen) + {m.index} by {
      assert forall j :: 0 <= j < |seen| ==> seen'[j] == seen[j];
      assert seen'[|seen|] == m;
    }
    assert forall k :: k in merged.pending ==> merged.pending[k] in seen' by {
      forall k | k in merged.pending ensures merged.pending[k] in seen' {
        if k != m.index {
          assert merged.pending[k] == s.pending[k] && s.pending[k] in seen;
        }
      }
    }
    FlushOrigins(merged, seen');
  }

  /** A flush writes and keeps only entries it already held or had written. */
  lemma FlushOrigins(s: State, seen: seq<Msg>)
    requires forall k :: 0 <= k < |s.written| ==> s.written[k] in seen
    requires forall k :: k in s.pending ==> s.pending[k] in seen
    ensures forall k :: 0 <= k < |Flush(s).written| ==> Flush(s).written[k] in seen
    ensures forall k :: k in Flush(s).pending ==> Flush(s).pending[k] in seen
  {
    var r := Flush(s);
    FlushSpec(s);
    forall k | 0 <= k < |r.written| ensures r.written[k] in seen {
      if k < |s.written| {
        assert r.written[k] == r.written[..|s.written|][k];
      } else {
        var key := s.next + (k - |s.written|);
        assert r.written[k] == s.pending[key];
      }
    }
  }

  lemma {:induction false} ConsumeTracks(rule: Rule, s: State, seen: seq<Msg>, ms: seq<Msg>)
    decreases |ms|
    requires Tracks(s, seen)
    ensures Tracks(Consume(rule, s, ms), seen + BeforePoison(ms))
  {
    if ms == [] || ms[0].IsPoison() {
      assert seen + BeforePoison(ms) == seen;
    } else {
      StepTracks(rule, s, seen, ms[0]);
      ConsumeTracks(rule, Step(rule, s, ms[0]), seen + [ms[0]], ms[1..]);
      assert BeforePoison(ms) == [ms[0]] + BeforePoison(ms[1..]);
      assert seen + [ms[0]] + BeforePoison(ms[1..]) == seen + BeforePoison(ms);
    }
  }

  /** Over a whole run the cursor never goes back and what was written stays
      written, whatever the messages. */
  lemma {:induction false} ConsumeGrows(rule: Rule, s: State, ms: seq<Msg>)
    decreases |ms|
    ensures s.next <= Consume(rule, s, ms).next
    ensures |s.written| <= |Consume(rule, s, ms).written|
    ensures Consume(rule, s, ms).written[..|s.written|] == s.written
  {
    if ms != [] && !ms[0].IsPoison() {
      var merged := State(Merge(rule, s.pending, ms[0]), s.next, s.written);
      var s' := Step(rule, s, ms[0]);
      assert s' == Flush(merged);
      FlushSpec(merged);
      ConsumeGrows(rule, s', ms[1..]);
      var r := Consume(rule, s, ms);
      assert r.written[..|s.written|] == r.written[..|s'.written|][..|s.written|];
    }
  }

  /** A whole run from the empty state, however the messages were interleaved:
      lines come out in strictly ascending index order, each index below the
      cursor exactly once, only from messages that arrived before POISON; and an
      index at or beyond the cursor is still pending exactly when a message for
      it arrived. */
  lemma RunFromEmpty(rule: Rule, ms: seq<Msg>)
    ensures var r := Consume(rule, Init(), ms);
      && |r.written| == r.next
      && (forall k :: 0 <= k < r.next ==> r.written[k].index == k && r.written[k] in BeforePoison(ms))
      && r.next !in r.pending
      && (forall k :: k >= r.next ==> (k in r.pending <==> k in Indices(BeforePoison(ms))))
      && (forall k :: 0 <= k < r.next ==> k in Indices(BeforePoison(ms)))
  {
    var b := BeforePoison(ms);
    var r := Consume(rule, Init(), ms);
    ConsumeTracks(rule, Init(), [], ms);
    assert [] + b == b;
    assert Tracks(r, b);
    forall k | 0 <= k < r.next ensures k in Indices(b) {
      assert r.written[k] in b;
      var j :| 0 <= j < |b| && b[j] == r.written[k];
      assert b[j].index == k;
    }
  }

  /** An index for which no message arrives holds back every line from it on:
      entries waiting behind a gap are never written. */
  lemma GapBlocks(rule: Rule, ms: seq<Msg>, gap: nat)
    requires gap !in Indices(BeforePoison(ms))
    ensures Consume(rule, Init(), ms).next <= gap
  {
    RunFromEmpty(rule, ms);
  }

  /** Once a message has arrived for every index below n, all of them have been
      written: the output lags only behind an outstanding gap. */
  lemma CompleteWhenAllArrive(rule: Rule, ms: seq<Msg>, n: nat)
    requires forall k :: 0 <= k < n ==> k in Indices(BeforePoison(ms))
    ensures n <= Consume(rule, Init(), ms).next
  {
    RunFromEmpty(rule, ms);
  }

  // ---------------------------------------------------------------------------
  // The reversed comparator, exhibited

  /** The line written for the RESULT of 4 in the traces below. */
  lemma RenderFour()
    ensures Lines([Value(0, 4, 24)]) == ["4 = 24"]
  {
    assert DigitChar(4) == '4' && DigitChar(2) == '2';
    assert NatToString(24) == NatToString(2) + [DigitChar(4)];
    assert IntToString(4) == "4" && IntToString(24) == "24";
    assert TextOf(Value(0, 4, 24).value) == "4";
    assert NumberOf(Value(0, 4, 24).factorial) == "24";
    assert "4" + " = " + "24" == "4 = 24";
    assert [Value(0, 4, 24)][..0] == [];
  }

  /** In inline mode the reader posts RAW_ERROR and then SKIP for a bad line.
      While an earlier index is still outstanding both wait in `pending`, the
      SKIP replaces the RAW_ERROR, and the raw line never reaches the output. */
  lemma InlineErrorLostBehindGap()
    ensures Lines(Consume(AsWritten, Init(), [Raw(1, "y"), Skip(1), Value(0, 4, 24), Poison()]).written)
            == ["4 = 24"]
  {
    var ms := [Raw(1, "y"), Skip(1), Value(0, 4, 24), Poison()];
    var s1 := State(map[1 := Raw(1, "y")], 0, []);
    assert Step(AsWritten, Init(), ms[0]) == s1;
    var s2 := State(map[1 := Skip(1)], 0, []);
    assert Step(AsWritten, s1, ms[1]) == s2;
    var m0 := map[1 := Skip(1), 0 := Value(0, 4, 24)];
    assert Merge(AsWritten, s2.pending, ms[2]) == m0;
    assert m0 - {0} == map[1 := Skip(1)];
    assert map[1 := Skip(1)] - {1} == map[];
    var done := State(map[], 2, [Value(0, 4, 24), Skip(1)]);
    assert Flush(State(map[1 := Skip(1)], 1, [Value(0, 4, 24)])) == done;
    assert m0[0] == Value(0, 4, 24) && [] + [Value(0, 4, 24)] == [Value(0, 4, 24)];
    assert Flush(State(m0, 0, [])) == Flush(State(map[1 := Skip(1)], 1, [Value(0, 4, 24)]));
    assert Step(AsWritten, s2, ms[2]) == done;
    assert ms[1..][1..][1..] == [Poison()];
    assert Consume(AsWritten, Init(), ms) == done;
    RenderFour();
    assert done.written[..1] == [Value(0, 4, 24)];
  }

  /** With the corrected preference the same messages keep the raw line. */
  lemma InlineErrorKeptWhenIntended()
    ensures Lines(Consume(Intended, Init(), [Raw(1, "y"), Skip(1), Value(0, 4, 24), Poison()]).written)
            == ["4 = 24", "y"]
  {
    var ms := [Raw(1, "y"), Skip(1), Value(0, 4, 24), Poison()];
    var s1 := State(map[1 := Raw(1, "y")], 0, []);
    assert Step(Intended, Init(), ms[0]) == s1;
    assert Step(Intended, s1, ms[1]) == s1;
    var m0 := map[1 := Raw(1, "y"), 0 := Value(0, 4, 24)];
    assert Merge(Intended, s1.pending, ms[2]) == m0;
    assert m0 - {0} == map[1 := Raw(1, "y")];
    assert map[1 := Raw(1, "y")] - {1} == map[];
    var done := State(map[], 2, [Value(0, 4, 24), Raw(1, "y")]);
    assert Flush(State(map[1 := Raw(1, "y")], 1, [Value(0, 4, 24)])) == done;
    assert m0[0] == Value(0, 4, 24) && [] + [Value(0, 4, 24)] == [Value(0, 4, 24)];
    assert Flush(State(m0, 0, [])) == Flush(State(map[1 := Raw(1, "y")], 1, [Value(0, 4, 24)]));
    assert Step(Intended, s1, ms[2]) == done;
    assert ms[1..][1..][1..] == [Poison()];
    assert Consume(Intended, Init(), ms) == done;
    RenderFour();
    assert done.written[..1] == [Value(0, 4, 24)];
  }

  // ---------------------------------------------------------------------------
  // The task itself, updating its map and cursor in place

  class WriterTask {
    /** The merge preference: AsWritten is the program's, Intended the correction. */
    const rule: Rule
    var pending: map<int, Msg>
    var nextToWrite: nat
    /** The lines of the output file. */
    var output: seq<string>
    /** Every message handed to writeOne, in order. */
    ghost var written: seq<Msg>

    ghost function Abstract(): State
      reads this
    {
      State(pending, nextToWrite, written)
    }

    ghost predicate Valid()
      reads this
    {
      Settled(Abstract()) && output == Lines(written)
    }

    /** The state when run() starts: an empty map, the cursor at 0, a truncated file. */
    constructor (rule: Rule)
      ensures Valid() && Abstract() == Init() && output == [] && this.rule == rule
    {
      this.rule := rule;
      pending := map[];
      nextToWrite := 0;
      output := [];
      written := [];
    }

    /** WriterTask.writeOne followed by the flush of the writer. */
    method WriteOne(m: Msg)
      modifies this
      ensures pending == old(pending) && nextToWrite == old(nextToWrite)
      ensures written == old(written) + [m]
      ensures output == old(output) + (match Render(m) case Some(line) => [line] case None => [])
    {
      match Render(m) {
        case Some(line) => output := output + [line];
        case None =>
      }
      written := written + [m];
    }

    /** WriterTask.flushContiguousPrefix */
    method FlushContiguousPrefix()
      requires Ordered(Abstract()) && output == Lines(written)
      modifies this
      ensures Abstract() == Flush(old(Abstract()))
      ensures Valid()
    {
      FlushSettles(Abstract());
      while nextToWrite in pending
        invariant Flush(Abstract()) == Flush(old(Abstract()))
        invariant output == Lines(written)
        decreases |pending|
      {
        var m := pending[nextToWrite];
        ghost var before := written;
        assert |pending - {nextToWrite}| < |pending| by {
          assert (pending - {nextToWrite}).Keys == pending.Keys - {nextToWrite};
          assert |(pending - {nextToWrite}).Keys| < |pending.Keys|;
        }
        pending := pending - {nextToWrite};
        WriteOne(m);
        nextToWrite := nextToWrite + 1;
        assert (before + [m])[..|before|] == before;
      }
    }

    /** One turn of the loop in run(): merge the message, then flush. */
    method Handle(m: Msg)
      requires Valid() && !m.IsPoison()
      modifies this
      ensures Valid() && Abstract() == Step(rule, old(Abstract()), m)
    {
      if m.index in pending {
        assert Choose(rule, pending[m.index], m).index == m.index;
      }
      pending := Merge(rule, pending, m);
      FlushContiguousPrefix();
    }

    /** WriterTask.run: take messages until POISON. The model stops as well when
        the channel has nothing more to deliver, where the program would block. */
    method Run(queue: Channel.MsgQueue)
      requires Valid()
      modifies this, queue
      ensures Valid()
      ensures Abstract() == Consume(rule, old(Abstract()), old(queue.items))
      ensures queue.items == AfterPoison(old(queue.items))
    {
      while queue.items != []
        invariant Valid()
        invariant Consume(rule, Abstract(), queue.items) == Consume(rule, old(Abstract()), old(queue.items))
        invariant AfterPoison(queue.items) == AfterPoison(old(queue.items))
        decreases |queue.items|
      {
        var m := queue.Take();
        if m.IsPoison() {
          return;
        }
        Handle(m);
      }
    }
  }
}
