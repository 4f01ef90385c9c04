/** The stream that turns arbitrary chunks of output into log lines. */
module LogLines {

  /** What one more character does to the parts of a split text. */
  function Push(parts: seq<string>, c: char): (r: seq<string>)
    requires parts != []
    ensures r != []
  {
    if c == '\n' then parts + [""]
    else parts[..|parts| - 1] + [parts[|parts| - 1] + [c]]
  }

  /** `s.split("\n")`. */
  function Split(s: string): (parts: seq<string>)
    ensures parts != []
  {
    if s == "" then [""] else Push(Split(s[..|s| - 1]), s[|s| - 1])
  }

  /** `"\n".join(parts)`. */
  function Join(parts: seq<string>): string
    requires parts != []
  {
    if |parts| == 1 then parts[0] else Join(parts[..|parts| - 1]) + "\n" + parts[|parts| - 1]
  }

  lemma JoinPush(parts: seq<string>, c: char, joined: string)
    requires parts != [] && Join(parts) == joined
    ensures Join(Push(parts, c)) == joined + [c]
  {
    var p := Push(parts, c);
    if c == '\n' {
      assert p[..|p| - 1] == parts;
      assert joined + "\n" + "" == joined + [c];
    } else if |parts| > 1 {
      var front, last := parts[..|parts| - 1], parts[|parts| - 1];
      assert p[..|p| - 1] == front;
      assert joined == Join(front) + "\n" + last;
      assert Join(front) + "\n" + (last + [c]) == joined + [c];
    }
  }

  /** Nothing is lost: joining the parts again gives back what was split. */
  lemma {:induction false} JoinSplit(s: string)
    ensures Join(Split(s)) == s
  {
    if s != "" {
      var front := s[..|s| - 1];
      JoinSplit(front);
      JoinPush(Split(front), s[|s| - 1], front);
    }
  }

  /** Every part is a single line. */
  lemma {:induction false} PartsAreLines(s: string)
    ensures forall i :: 0 <= i < |Split(s)| ==> '\n' !in Split(s)[i]
  {
    if s != "" {
      PartsAreLines(s[..|s| - 1]);
    }
  }

  lemma {:induction false} SplitLine(s: string)
    ensures '\n' !in s <==> Split(s) == [s]
  {
    if s != "" {
      var front := s[..|s| - 1];
      SplitLine(front);
      assert s == front + [s[|s| - 1]];
      if Split(s) == [s] {
        PartsAreLines(s);
        assert '\n' !in Split(s)[0];
      }
    }
  }

  lemma PushBehind(front: seq<string>, parts: seq<string>, c: char)
    requires parts != []
    ensures Push(front + parts, c) == front + Push(parts, c)
  {
  }

  /** Appending data only reopens the last part. */
  lemma {:induction false} SplitContinues(a: string, front: seq<string>, last: string, b: string)
    requires Split(a) == front + [last]
    ensures Split(a + b) == front + Split(last + b)
  {
    if b == "" {
      PartsAreLines(a);
      assert '\n' !in Split(a)[|front|];
      SplitLine(last);
      assert a + b == a && last + b == last;
    } else {
      var less, c := b[..|b| - 1], b[|b| - 1];
      SplitContinues(a, front, last, less);
      assert (a + b)[..|a + b| - 1] == a + less && (last + b)[..|last + b| - 1] == last + less;
      PushBehind(front, Split(last + less), c);
    }
  }

  class LogStream {
    var buffer: string
    var lines: seq<string>        // the lines handed to the log so far
    ghost var written: string     // everything ever written

    /** The lines logged, and the unfinished one, are the split of all data written. */
    ghost predicate Valid()
      reads this
    {
      lines + [buffer] == Split(written)
    }

    constructor ()
      ensures Valid() && written == "" && buffer == "" && lines == []
    {
      buffer, lines, written := "", [], "";
    }

    method Write(data: string)
      requires Valid()
      modifies this
      ensures Valid() && written == old(written) + data && old(lines) <= lines
    {
      SplitContinues(written, lines, buffer, data);
      written := written + data;
      buffer := buffer + data;
      SplitLine(buffer);
      if '\n' in buffer {
        var parts := Split(buffer);
        Log(parts[..|parts| - 1]);
        buffer := parts[|parts| - 1];
        assert parts == parts[..|parts| - 1] + [buffer];
      }
    }

    method Log(parts: seq<string>)
      modifies this`lines
      ensures lines == old(lines) + parts
    {
      for i := 0 to |parts|
        invariant lines == old(lines) + parts[..i]
      {
        lines := lines + [parts[i]];
      }
    }

    /** However the data is cut into chunks, the outcome is that of writing it whole. */
    method WriteAll(chunks: seq<string>)
      requires Valid()
      modifies this
      ensures Valid() && written == old(written) + Concat(chunks)
      ensures lines + [buffer] == Split(old(written) + Concat(chunks)) && '\n' !in buffer
    {
      for i := 0 to |chunks|
        invariant Valid() && written == old(written) + Concat(chunks[..i])
      {
        assert chunks[..i + 1][..i] == chunks[..i];
        Write(chunks[i]);
      }
      assert chunks[..|chunks|] == chunks;
      PartsAreLines(written);
      assert Split(written)[|lines|] == buffer;
    }
  }

  function Concat(chunks: seq<string>): string {
    if chunks == [] then "" else Concat(chunks[..|chunks| - 1]) + chunks[|chunks| - 1]
  }
}
