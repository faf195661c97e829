/** Messages: the record that flows through the results channel. It keeps the
    Java record's six components; a component the factory leaves null is None. */
module Messages {
  import opened Wrappers
  import opened JavaText

  /** Messages.Type (the enum constants keep their Java names). */
  datatype Type = RESULT | RAW_ERROR | ERROR_MSG | SKIP | POISON

  /** Messages.Msg. Record equality in Java compares all six components, which is
      exactly Dafny's structural equality on this datatype. */
  datatype Msg = Msg(index: int, kind: Type, value: Option<string>, factorial: Option<int>,
                     rawLine: Option<string>, errorMsg: Option<string>)
  {
    predicate IsPoison() { kind == POISON }
  }

  /** Messages.value: a RESULT carrying the input as its decimal text. */
  function Value(index: int, value: Int32, factorial: int): Msg
  {
    Msg(index, RESULT, Some(IntToString(value)), Some(factorial), None, None)
  }

  /** Messages.raw: a RAW_ERROR carrying the untouched input line. */
  function Raw(index: int, originalLine: string): Msg
  {
    Msg(index, RAW_ERROR, None, None, Some(originalLine), None)
  }

  /** Messages.skip: a placeholder that only holds an index. */
  function Skip(index: int): Msg
  {
    Msg(index, SKIP, None, None, None, None)
  }

  /** Messages.poison: the end-of-stream sentinel, with index Integer.MAX_VALUE. */
  function Poison(): Msg
  {
    Msg(INT_MAX, POISON, None, None, None, None)
  }

  /** What each factory fills in and leaves null, and how isPoison answers for it.
      The RESULT's text reads back, through Integer.parseInt, as the input value. */
  lemma FactoryFields(i: int, v: Int32, f: int, line: string)
    ensures var m := Value(i, v, f);
      m.index == i && m.kind == RESULT && m.value.Some? && ParseInt(m.value.value) == Some(v)
      && m.factorial == Some(f) && m.rawLine == None && m.errorMsg == None && !m.IsPoison()
    ensures var m := Raw(i, line);
      m.index == i && m.kind == RAW_ERROR && m.rawLine == Some(line)
      && m.value == None && m.factorial == None && m.errorMsg == None && !m.IsPoison()
    ensures var m := Skip(i);
      m.index == i && m.kind == SKIP
      && m.value == None && m.factorial == None && m.rawLine == None && m.errorMsg == None && !m.IsPoison()
    ensures var m := Poison();
      m.index == INT_MAX && m.kind == POISON && m.IsPoison()
      && m.value == None && m.factorial == None && m.rawLine == None && m.errorMsg == None
  {
    ParseIntOfIntToString(v);
  }

  /** Two RESULT messages are equal exactly when index, input and factorial agree:
      rendering the input as text loses nothing. */
  lemma ValueEquality(i: int, v: Int32, f: int, j: int, w: Int32, g: int)
    ensures Value(i, v, f) == Value(j, w, g) <==> i == j && v == w && f == g
  {
    if Value(i, v, f) == Value(j, w, g) {
      IntToStringInjective(v, w);
    }
  }
}

/** The results channel (a LinkedBlockingQueue of messages): first in, first out. */
module Channel {
  import opened Messages

  class MsgQueue {
    var items: seq<Msg>

    constructor ()
      ensures items == []
    {
      items := [];
    }

    /** BlockingQueue.put on an unbounded queue: appends at the tail. */
    method Put(m: Msg)
      modifies this
      ensures items == old(items) + [m]
    {
      items := items + [m];
    }

    /** BlockingQueue.take once a message is available: removes the head. */
    method Take() returns (m: Msg)
      requires items != []
      modifies this
      ensures m == old(items)[0] && items == old(items)[1..]
    {
      m := items[0];
      items := items[1..];
    }
  }
}
