/** ErrorLogger: where the reader reports bad lines. In file mode every report
    is a line of the errors file; in inline mode a bad line becomes a RAW_ERROR
    message on the results channel, so that the writer puts the original text
    into the output at its own index. */
module ErrorLog {
  import opened Wrappers
  import opened JavaText
  import opened Messages
  import Channel

  /** The diagnostic written for a bad line: "Line <index+1>: [<line>] -> <why>". */
  function ErrorLine(index: int, originalLine: string, explanation: string): string
  {
    "Line " + IntToString(index + 1) + ": [" + originalLine + "] -> " + explanation
  }

  /** The longest run of decimal digits at the front of `s`. */
  function DigitPrefix(s: string): (d: string)
    ensures |d| <= |s| && d == s[..|d|] && AllDigits(d)
    ensures |d| < |s| ==> !IsDigit(s[|d|])
  {
    if |s| > 0 && IsDigit(s[0]) then [s[0]] + DigitPrefix(s[1..]) else []
  }

  /** Reads back the line number of a diagnostic. */
  function LineNumber(line: string): Option<nat>
  {
    if |line| >= 5 && line[..5] == "Line " then
      var d := DigitPrefix(line[5..]);
      if |d| > 0 then Some(DigitsValue(d)) else None
    else None
  }

  lemma {:induction false} DigitPrefixOfDigits(d: string, rest: string)
    requires AllDigits(d)
    requires rest == [] || !IsDigit(rest[0])
    ensures DigitPrefix(d + rest) == d
  {
    if d != [] {
      assert (d + rest)[1..] == d[1..] + rest;
      DigitPrefixOfDigits(d[1..], rest);
    } else {
      assert d + rest == rest;
    }
  }

  /** The 1-based line number of a diagnostic reads back from its text, whatever
      the original line and the explanation are. */
  lemma LineNumberOfErrorLine(index: nat, originalLine: string, explanation: string)
    ensures LineNumber(ErrorLine(index, originalLine, explanation)) == Some(index + 1)
  {
    var digits := NatToString(index + 1);
    var rest := ": [" + originalLine + "] -> " + explanation;
    var line := ErrorLine(index, originalLine, explanation);
    assert line == "Line " + (digits + rest);
    assert line[5..] == digits + rest;
    DigitPrefixOfDigits(digits, rest);
  }

  class ErrorLogger {
    const inlineMode: bool
    /** The results channel, in inline mode; null in file mode. */
    const outQueue: Channel.MsgQueue?
    /** The lines of the errors file. */
    var file: seq<string>
    /** Whether the file's PrintWriter has been closed; it then drops what it is given. */
    var closed: bool

    ghost predicate Valid()
    {
      inlineMode == (outQueue != null)
    }

    /** ErrorLogger.toFile: a freshly truncated errors file. */
    constructor ToFile()
      ensures Valid() && !inlineMode && file == [] && !closed
    {
      inlineMode := false;
      outQueue := null;
      file := [];
      closed := false;
    }

    /** ErrorLogger.inline */
    constructor Inline(queue: Channel.MsgQueue)
      ensures Valid() && inlineMode && outQueue == queue && file == [] && !closed
    {
      inlineMode := true;
      outQueue := queue;
      file := [];
      closed := false;
    }

    /** ErrorLogger.log: one line in the file in file mode; nothing else, and
        never anything on the channel. */
    method Log(msg: string)
      modifies this
      ensures closed == old(closed)
      ensures file == if inlineMode || closed then old(file) else old(file) + [msg]
    {
      if !inlineMode && !closed {
        file := file + [msg];
      }
    }

    /** ErrorLogger.logErrorLine */
    method LogErrorLine(index: int, originalLine: string, explanation: string)
      requires Valid()
      modifies this, outQueue
      ensures closed == old(closed)
      ensures inlineMode ==>
                file == old(file) && outQueue.items == old(outQueue.items) + [Raw(index, originalLine)]
      ensures !inlineMode ==> file == if closed then old(file)
                                      else old(file) + [ErrorLine(index, originalLine, explanation)]
    {
      if inlineMode {
        outQueue.Put(Raw(index, originalLine));
      } else if !closed {
        file := file + [ErrorLine(index, originalLine, explanation)];
      }
    }

    /** ErrorLogger.close: nothing in inline mode; in file mode the file keeps
        everything written so far and takes nothing more. */
    method Close()
      modifies this
      ensures file == old(file)
      ensures closed == (old(closed) || !inlineMode)
    {
      if !inlineMode {
        closed := true;
      }
    }
  }
}
