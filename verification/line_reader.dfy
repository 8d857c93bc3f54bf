/**
 * ReadLine: reads one line from the socket, one octet at a time. "\n",
 * "\r\n" and a bare "\r" all end a line and each is stored as a single '\n'.
 */
module LineReader {
  import opened CStrings
  import opened Sockets

  /** What a read leaves: the stored text (before the NUL) and the cursor, or a failed read. */
  datatype Line = Line(text: string, next: nat) | ReadFailed

  predicate IsLineEnd(c: char)
  {
    c == '\n' || c == '\r'
  }

  predicate NoLineEnd(s: string)
  {
    forall i :: 0 <= i < |s| ==> !IsLineEnd(s[i])
  }

  /** `text` ends with the normalised terminator. */
  predicate Terminated(text: string)
  {
    text != [] && text[|text| - 1] == '\n'
  }

  function Prepend(w: string, l: Line): Line
  {
    match l
    case ReadFailed => ReadFailed
    case Line(text, next) => Line(w + text, next)
  }

  /**
   * The line read from `input` at `pos` when at most `room` octets may be
   * stored (ReadLine's max_size is room + 1: one place stays for the NUL).
   */
  function ReadLineSpec(input: string, pos: nat, room: nat): (l: Line)
    requires pos <= |input|
    ensures l.Line? ==> pos <= l.next <= |input| && |l.text| <= room && |l.text| <= l.next - pos
    ensures l.Line? && room > 0 ==> pos < l.next
    decreases room
  {
    if room == 0 then Line([], pos)
    else if pos == |input| then ReadFailed
    else if input[pos] == '\n' then Line("\n", pos + 1)
    else if input[pos] == '\r' then
      if pos + 1 < |input| && input[pos + 1] == '\n' then Line("\n", pos + 2) else Line("\n", pos + 1)
    else
      Prepend([input[pos]], ReadLineSpec(input, pos + 1, room - 1))
  }

  /** Prepending a text and then one more octet is prepending both at once. */
  lemma PrependTwice(w: string, c: char, l: Line)
    ensures Prepend(w, Prepend([c], l)) == Prepend(w + [c], l)
  {
    if l.Line? {
      assert w + ([c] + l.text) == (w + [c]) + l.text;
    }
  }

  /**
   * A stored line holds no '\r' and no '\n' before its end; it either ends
   * with the one normalised '\n' or fills the whole capacity.
   */
  lemma {:induction false} LineShape(input: string, pos: nat, room: nat)
    requires pos <= |input|
    ensures var l := ReadLineSpec(input, pos, room);
      l.Line? ==>
        && '\r' !in l.text
        && (forall i :: 0 <= i < |l.text| - 1 ==> l.text[i] != '\n')
        && (Terminated(l.text) || (|l.text| == room && l.next == pos + room))
    decreases room
  {
    if room > 0 && pos < |input| && !IsLineEnd(input[pos]) {
      LineShape(input, pos + 1, room - 1);
    }
  }

  /** A read fails only when the stream ends with no line end and before the capacity is reached. */
  lemma {:induction false} FailsOnlyAtEndOfStream(input: string, pos: nat, room: nat)
    requires pos <= |input| && ReadLineSpec(input, pos, room).ReadFailed?
    ensures |input| - pos < room && NoLineEnd(input[pos..])
    decreases room
  {
    if pos < |input| {
      FailsOnlyAtEndOfStream(input, pos + 1, room - 1);
      assert input[pos..] == [input[pos]] + input[pos + 1..];
    }
  }

  /** Octets that are not line ends are stored verbatim, in order. */
  lemma {:induction false} CopiesContent(input: string, pos: nat, w: string, room: nat)
    requires pos + |w| <= |input| && input[pos..pos + |w|] == w && NoLineEnd(w)
    requires |w| <= room
    ensures ReadLineSpec(input, pos, room) == Prepend(w, ReadLineSpec(input, pos + |w|, room - |w|))
    decreases |w|
  {
    if w != [] {
      var rest := ReadLineSpec(input, pos + |w|, room - |w|);
      assert input[pos] == w[0] && !IsLineEnd(w[0]);
      assert ReadLineSpec(input, pos, room) == Prepend([w[0]], ReadLineSpec(input, pos + 1, room - 1));
      assert input[pos + 1..pos + |w|] == w[1..];
      CopiesContent(input, pos + 1, w[1..], room - 1);
      PrependFirst(w, rest);
    }
  }

  /** Prepending the first octet to what the rest of a text prepends is prepending the text. */
  lemma PrependFirst(w: string, l: Line)
    requires w != []
    ensures Prepend([w[0]], Prepend(w[1..], l)) == Prepend(w, l)
  {
    if l.Line? {
      assert [w[0]] + (w[1..] + l.text) == w + l.text;
    }
  }

  /** A line ended by "\n" is stored as its content and one '\n'; the "\n" is consumed. */
  lemma LfEndsLine(input: string, pos: nat, w: string, room: nat)
    requires pos + |w| < |input| && input[pos..pos + |w|] == w && NoLineEnd(w)
    requires input[pos + |w|] == '\n'
    requires |w| + 1 <= room
    ensures ReadLineSpec(input, pos, room) == Line(w + "\n", pos + |w| + 1)
  {
    CopiesContent(input, pos, w, room);
  }

  /** A line ended by "\r\n" is stored as its content and one '\n'; both octets are consumed. */
  lemma CrLfEndsLine(input: string, pos: nat, w: string, room: nat)
    requires pos + |w| + 1 < |input| && input[pos..pos + |w|] == w && NoLineEnd(w)
    requires input[pos + |w|] == '\r' && input[pos + |w| + 1] == '\n'
    requires |w| + 1 <= room
    ensures ReadLineSpec(input, pos, room) == Line(w + "\n", pos + |w| + 2)
  {
    CopiesContent(input, pos, w, room);
  }

  /**
   * A line ended by a bare "\r" is stored as its content and one '\n'; only
   * the "\r" is consumed, so the octet after it (if any) is still unread.
   */
  lemma BareCrEndsLine(input: string, pos: nat, w: string, room: nat)
    requires pos + |w| < |input| && input[pos..pos + |w|] == w && NoLineEnd(w)
    requires input[pos + |w|] == '\r'
    requires pos + |w| + 1 == |input| || input[pos + |w| + 1] != '\n'
    requires |w| + 1 <= room
    ensures ReadLineSpec(input, pos, room) == Line(w + "\n", pos + |w| + 1)
  {
    CopiesContent(input, pos, w, room);
  }

  /** With no line end among the next `room` octets, the line is cut after `room` octets, without '\n'. */
  lemma TruncatesAtCapacity(input: string, pos: nat, room: nat)
    requires pos + room <= |input| && NoLineEnd(input[pos..pos + room])
    ensures ReadLineSpec(input, pos, room) == Line(input[pos..pos + room], pos + room)
  {
    CopiesContent(input, pos, input[pos..pos + room], room);
    assert input[pos..pos + room] + [] == input[pos..pos + room];
  }

  /** The stream ends before a line end and before the capacity is reached: the read fails. */
  lemma FailsAtEndOfStream(input: string, pos: nat, room: nat)
    requires pos <= |input| && |input| - pos < room && NoLineEnd(input[pos..])
    ensures ReadLineSpec(input, pos, room) == ReadFailed
  {
    CopiesContent(input, pos, input[pos..], room);
  }

  /**
   * int ReadLine(int sock, char buf[], ssize_t max_size): returns 0 after
   * storing the line and a NUL in `buf`, or -1 when a read fails first.
   */
  method ReadLine(sock: Socket, buf: array<char>, maxSize: int) returns (r: int)
    requires sock.Valid() && 1 <= maxSize <= buf.Length
    modifies sock`cursor, buf
    ensures sock.Valid()
    ensures var l := ReadLineSpec(sock.incoming, old(sock.cursor), maxSize - 1);
      && (r == 0 || r == -1)
      && (r == 0 <==> l.Line?)
      && (l.Line? ==> buf[..|l.text|] == l.text && buf[|l.text|] == NUL && sock.cursor == l.next)
      && (l.ReadFailed? ==> sock.cursor == |sock.incoming|)
    ensures var l := ReadLineSpec(sock.incoming, old(sock.cursor), maxSize - 1);
      l.Line? ==> buf[|l.text| + 1..] == old(buf[|l.text| + 1..])
  {
    ghost var pos0 := sock.cursor;
    ghost var room: nat := maxSize - 1;
    ghost var input := sock.incoming;
    var c := NUL;
    var i := 0;
    while i < maxSize - 1
      invariant 0 <= i <= room && sock.Valid()
      invariant ReadLineSpec(input, pos0, room) == Prepend(buf[..i], ReadLineSpec(input, sock.cursor, room - i))
      invariant buf[i..] == old(buf[i..])
    {
      ghost var w := buf[..i];
      var n;
      n, c := ReadOctet(sock, c, room - i);
      if n <= 0 {
        return -1;
      }
      buf[i] := c;
      i := i + 1;
      assert buf[..i] == w + [c];
      if c == '\n' {
        break;
      }
      PrependTwice(w, c, ReadLineSpec(input, sock.cursor, room - i));
    }
    buf[i] := NUL;
    return 0;
  }

  /**
   * The reads of one round of ReadLine's loop: recv one octet; after a '\r',
   * peek at the next one and consume it when it is '\n'. Either way the
   * '\r' comes back as '\n', the octet to store. `c` is the octet of the
   * previous round, which a recv at the end of the stream leaves in place.
   */
  method ReadOctet(sock: Socket, c: char, ghost room: nat) returns (n: int, c': char)
    requires sock.Valid() && room > 0
    modifies sock`cursor
    ensures sock.Valid()
    ensures var step := ReadLineSpec(sock.incoming, old(sock.cursor), room);
      && (n <= 0 ==> step == ReadFailed && sock.cursor == |sock.incoming|)
      && (n > 0 && c' == '\n' ==> step == Line("\n", sock.cursor))
      && (n > 0 && c' != '\n' ==> step == Prepend([c'], ReadLineSpec(sock.incoming, sock.cursor, room - 1)))
    ensures n <= 0 <==> old(sock.cursor) == |sock.incoming|
    ensures n > 0 && c' != '\n' ==>
      old(sock.cursor) < |sock.incoming| && c' == sock.incoming[old(sock.cursor)] && sock.cursor == old(sock.cursor) + 1
    ensures n > 0 && c' == '\n' ==>
      old(sock.cursor) < sock.cursor <= |sock.incoming| && sock.incoming[old(sock.cursor)..sock.cursor] in {"\n", "\r\n", "\r"}
  {
    ghost var p0 := sock.cursor;
    n, c' := sock.Recv(c);
    if n > 0 && c' == '\r' {
      var peeked;
      peeked, c' := sock.Peek(c');
      if c' == '\n' {
        peeked, c' := sock.Recv(c');
        assert sock.incoming[p0..sock.cursor] == "\r\n";
      } else {
        c' := '\n';
        assert sock.incoming[p0..sock.cursor] == "\r";
      }
    } else if n > 0 && c' == '\n' {
      assert sock.incoming[p0..sock.cursor] == "\n";
    }
  }
}
