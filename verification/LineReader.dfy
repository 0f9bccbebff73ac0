/** The wizard's line reader: one buffer, fed by chunks, and answers that do not depend on the chunks. */
module LineReader {
  import opened Bytes

  /** A line, the empty answer given when the input ends, or a wait that is never answered. */
  datatype Answer = Line(text: string) | InputEnded | NeverAnswered

  function Newline(text: string): (at: nat)
    ensures at <= |text| && '\n' !in text[..at]
    ensures at < |text| ==> text[at] == '\n'
  {
    if text == "" || text[0] == '\n' then 0 else 1 + Newline(text[1..])
  }

  function WithoutReturn(line: string): string {
    if line != "" && line[|line| - 1] == '\r' then line[..|line| - 1] else line
  }

  /** What one question gets when `rest` is everything not yet handed out: the answer and what is left. */
  function Ask(rest: string, ended: bool): (Answer, string, bool) {
    var at := Newline(rest);
    if at < |rest| then (Line(WithoutReturn(rest[..at])), rest[at + 1..], ended)
    else if !ended then (InputEnded, rest, true)
    else (NeverAnswered, rest, true)
  }

  function Answers(rest: string, ended: bool, n: nat): (answers: seq<Answer>)
    ensures |answers| == n
    decreases n
  {
    if n == 0 then []
    else
      var (answer, left, ended') := Ask(rest, ended);
      [answer] + Answers(left, ended', n - 1)
  }

  /** Once the end has been reported no event comes any more, so a later wait without a line is never answered. */
  class Reader {
    var stdinBuffer: string
    var arriving: seq<string>
    var ended: bool

    ghost predicate Valid()
      reads this
    {
      ended ==> arriving == []
    }

    ghost function Rest(): string
      reads this
    {
      stdinBuffer + Concat(arriving)
    }

    constructor (chunks: seq<string>)
      ensures Valid() && Rest() == Concat(chunks) && !ended
    {
      stdinBuffer, arriving, ended := "", chunks, false;
    }

    /** A buffered line, if there is one. */
    method Take() returns (line: Option<string>)
      modifies `stdinBuffer
      ensures var at := Newline(old(stdinBuffer));
              if at < |old(stdinBuffer)| then
                line == Some(WithoutReturn(old(stdinBuffer)[..at])) && stdinBuffer == old(stdinBuffer)[at + 1..]
              else line == None && stdinBuffer == old(stdinBuffer)
    {
      var newline := Newline(stdinBuffer);
      if newline == |stdinBuffer| {
        return None;
      }
      line := Some(WithoutReturn(stdinBuffer[..newline]));
      stdinBuffer := stdinBuffer[newline + 1..];
    }

    method ReadLine() returns (answer: Answer)
      requires Valid()
      modifies this
      ensures Valid() && (answer, Rest(), ended) == Ask(old(Rest()), old(ended))
    {
      hide Ask, WithoutReturn;
      ghost var rest := Rest();
      AskBuffered(stdinBuffer, Concat(arriving), ended);
      var buffered := Take();
      if buffered.Some? {
        return Line(buffered.value);
      }
      if ended {
        return NeverAnswered;
      }
      while arriving != []
        invariant Rest() == rest && !ended && Newline(stdinBuffer) == |stdinBuffer|
        decreases |arriving|
      {
        assert stdinBuffer + (arriving[0] + Concat(arriving[1..])) ==
               (stdinBuffer + arriving[0]) + Concat(arriving[1..]);
        stdinBuffer := stdinBuffer + arriving[0];
        arriving := arriving[1..];
        AskBuffered(stdinBuffer, Concat(arriving), ended);
        var line := Take();
        if line.Some? {
          return Line(line.value);
        }
      }
      AskBuffered(stdinBuffer, Concat(arriving), ended);
      ended := true;
      answer := InputEnded;
    }
  }

  /** With a newline in the buffer the answer is there already; without one only the end settles it. */
  lemma AskBuffered(text: string, later: string, ended: bool)
    ensures var at := Newline(text);
            && (at < |text| ==>
                  Ask(text + later, ended) == (Line(WithoutReturn(text[..at])), text[at + 1..] + later, ended))
            && (at == |text| && later == "" ==>
                  Ask(text + later, ended) == (if ended then NeverAnswered else InputEnded, text + later, true))
  {
    FirstNewline(text, later);
  }

  /** A newline already buffered stays the first one whatever arrives later. */
  lemma {:induction false} FirstNewline(text: string, later: string)
    ensures Newline(text) < |text| ==> Newline(text + later) == Newline(text)
    ensures Newline(text) < |text| ==> (text + later)[..Newline(text)] == text[..Newline(text)]
    ensures Newline(text) < |text| ==> (text + later)[Newline(text) + 1..] == text[Newline(text) + 1..] + later
    ensures later == "" ==> Newline(text + later) == Newline(text)
  {
    if later == "" {
      assert text + later == text;
    }
    if text != "" && text[0] != '\n' {
      assert (text + later)[1..] == text[1..] + later;
      FirstNewline(text[1..], later);
    }
  }

  /** Asking `n` times: for every division of the input into chunks the answers are those of the whole input. */
  method AskTimes(chunks: seq<string>, n: nat) returns (answers: seq<Answer>)
    ensures answers == Answers(Concat(chunks), false, n)
  {
    hide Ask;
    var reader := new Reader(chunks);
    answers := [];
    for i := 0 to n
      invariant reader.Valid() && fresh(reader)
      invariant answers + Answers(reader.Rest(), reader.ended, n - i) == Answers(Concat(chunks), false, n)
    {
      ghost var rest, ended, before := reader.Rest(), reader.ended, answers;
      var answer := reader.ReadLine();
      assert before + ([answer] + Answers(reader.Rest(), reader.ended, n - i - 1)) ==
             before + [answer] + Answers(reader.Rest(), reader.ended, n - i - 1);
      answers := answers + [answer];
    }
  }

  /** Each line with its newline. */
  function Terminated(lines: seq<string>): string {
    if lines == [] then "" else lines[0] + ("\n" + Terminated(lines[1..]))
  }

  /**
   * What the answers are: the newline-terminated lines of the input in order, each without one
   * trailing carriage return; then one empty answer for the end, which swallows an unterminated
   * last line; and after that no answer at all.
   */
  lemma AnswersAreLines(lines: seq<string>, tail: string, n: nat, i: nat)
    requires i < n && '\n' !in tail && forall k :: 0 <= k < |lines| ==> '\n' !in lines[k]
    ensures Answers(Terminated(lines) + tail, false, n)[i] ==
            if i < |lines| then
              Line(if lines[i] != "" && lines[i][|lines[i]| - 1] == '\r' then lines[i][..|lines[i]| - 1] else lines[i])
            else if i == |lines| then InputEnded
            else NeverAnswered
  {
    hide Answers, Terminated;
    AnswersInOrder(lines, tail, n, i);
  }

  lemma {:induction false} AnswersInOrder(lines: seq<string>, tail: string, n: nat, i: nat)
    requires i < n && '\n' !in tail && forall k :: 0 <= k < |lines| ==> '\n' !in lines[k]
    ensures Answers(Terminated(lines) + tail, false, n)[i] ==
            if i < |lines| then Line(WithoutReturn(lines[i]))
            else if i == |lines| then InputEnded
            else NeverAnswered
    decreases |lines|
  {
    var rest := Terminated(lines) + tail;
    if lines == [] {
      assert rest == tail;
      NoNewline(tail);
      if i > 0 {
        NeverAgain(tail, n - 1, i - 1);
      }
    } else {
      var later := Terminated(lines[1..]) + tail;
      assert rest == lines[0] + ("\n" + later);
      LineFirst(lines[0], later);
      if i > 0 {
        AnswersInOrder(lines[1..], tail, n - 1, i - 1);
      }
    }
  }

  lemma {:induction false} NoNewline(text: string)
    requires '\n' !in text
    ensures Newline(text) == |text|
  {
    if text != "" {
      NoNewline(text[1..]);
    }
  }

  lemma {:induction false} LineFirst(line: string, later: string)
    requires '\n' !in line
    ensures Ask(line + ("\n" + later), false) == (Line(WithoutReturn(line)), later, false)
  {
    var text := line + ("\n" + later);
    NewlineAfter(line, later);
    assert text[..|line|] == line && text[|line| + 1..] == later;
  }

  lemma {:induction false} NewlineAfter(line: string, later: string)
    requires '\n' !in line
    ensures Newline(line + ("\n" + later)) == |line|
  {
    var text := line + ("\n" + later);
    if line != "" {
      assert text[1..] == line[1..] + ("\n" + later);
      NewlineAfter(line[1..], later);
    }
  }

  lemma {:induction false} NeverAgain(rest: string, n: nat, i: nat)
    requires i < n && Newline(rest) == |rest|
    ensures Answers(rest, true, n)[i] == NeverAnswered
  {
    if i > 0 {
      NeverAgain(rest, n - 1, i - 1);
    }
  }
}
