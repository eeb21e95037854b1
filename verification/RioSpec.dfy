/** What a buffered reader promises (tinyhttp/rio.h), said about the byte stream alone:
    no buffer, no system call and no chunk appears here. */
module RioSpec {

  newtype Byte = b: int | 0 <= b < 256

  const NEWLINE: Byte := 10
  const NUL: Byte := 0

  lemma MarksAre()
    ensures NEWLINE as int == 10 && NUL as int == 0
  {
  }

  /** A client asks either for a line of at most maxlen - 1 bytes, or for n bytes. */
  datatype Call = Line(maxlen: nat) | Bytes(n: nat)

  function Min(a: int, b: int): int { if a < b then a else b }

  /** How many bytes reach through the first newline; past the end when there is none. */
  function ThroughNewline(s: seq<Byte>): (n: nat)
    ensures 1 <= n <= |s| + 1
    ensures n <= |s| ==> s[n - 1] == NEWLINE
    ensures NEWLINE !in s[..n - 1]
  {
    if s == [] || s[0] == NEWLINE then 1
    else
      var n := ThroughNewline(s[1..]);
      assert s[..n] == [s[0]] + s[1..][..n - 1];
      n + 1
  }

  /** How many bytes a call hands over when `s` is what the stream still holds. */
  function Amount(s: seq<Byte>, call: Call): (n: nat)
    ensures n <= |s|
  {
    match call
    case Line(maxlen) =>
      if maxlen == 0 then 0 else Min(Min(ThroughNewline(s), maxlen - 1), |s|)
    case Bytes(n) => Min(n, |s|)
  }

  /** The answers to a whole sequence of calls. */
  function Answers(s: seq<Byte>, calls: seq<Call>): (r: seq<seq<Byte>>)
    ensures |r| == |calls|
    decreases |calls|
  {
    if calls == [] then [] else
      var n := Amount(s, calls[0]);
      [s[..n]] + Answers(s[n..], calls[1..])
  }

  function Rest(s: seq<Byte>, calls: seq<Call>): seq<Byte>
    decreases |calls|
  {
    if calls == [] then s else Rest(s[Amount(s, calls[0])..], calls[1..])
  }

  function Joined(parts: seq<seq<Byte>>): seq<Byte>
  {
    if parts == [] then [] else parts[0] + Joined(parts[1..])
  }

  lemma {:induction false} JoinedCons(first: seq<Byte>, more: seq<seq<Byte>>)
    ensures Joined([first] + more) == first + Joined(more)
  {
    assert ([first] + more)[1..] == more;
  }

  lemma OneCall(s: seq<Byte>, calls: seq<Call>, n: nat)
    requires calls != [] && n == Amount(s, calls[0])
    ensures Joined(Answers(s, calls)) == s[..n] + Joined(Answers(s[n..], calls[1..]))
    ensures Rest(s, calls) == Rest(s[n..], calls[1..])
  {
    hide Amount, ThroughNewline;
    JoinedCons(s[..n], Answers(s[n..], calls[1..]));
  }

  /** Whatever the mixture of calls, no byte is lost, repeated or reordered. */
  lemma {:induction false} Transparent(s: seq<Byte>, calls: seq<Call>)
    ensures Joined(Answers(s, calls)) + Rest(s, calls) == s
    decreases |calls|
  {
    if calls == [] {
    } else {
      hide *;
      var n := Amount(s, calls[0]);
      var later, rest := Joined(Answers(s[n..], calls[1..])), Rest(s[n..], calls[1..]);
      OneCall(s, calls, n);
      calc {
        (s[..n] + later) + rest;
        s[..n] + (later + rest);
        { Transparent(s[n..], calls[1..]); }
        s[..n] + s[n..];
        s;
      }
    }
  }

  /** A line answer is determined by three facts a caller can see: it fits, no newline is
      passed over, and it stopped for a reason. */
  predicate IsLine(s: seq<Byte>, maxlen: nat, n: nat)
  {
    && n <= |s|
    && n <= (if maxlen == 0 then 0 else maxlen - 1)
    && (n > 0 ==> NEWLINE !in s[..n - 1])
    && (n == |s| || n + 1 >= maxlen || (n > 0 && s[n - 1] == NEWLINE))
  }

  lemma LineExactly(s: seq<Byte>, maxlen: nat, n: nat)
    ensures IsLine(s, maxlen, n) <==> n == Amount(s, Line(maxlen))
  {
    var t := ThroughNewline(s);
    var a := Amount(s, Line(maxlen));
    if 0 < a {
      assert s[..a - 1] == s[..t - 1][..a - 1];
    }
    if n <= |s| && 0 < n && t < n {
      assert s[..n - 1][t - 1] == NEWLINE;
    }
    if 0 < n < t {
      assert n - 1 < |s[..t - 1]| && s[..t - 1][n - 1] == s[n - 1];
    }
  }

  /** A byte answer is as well: it is no longer than asked for, and shorter only at the end. */
  lemma BytesExactly(s: seq<Byte>, n: nat, n': nat)
    ensures n' == Amount(s, Bytes(n)) <==> n' <= n && n' <= |s| && (n' == n || n' == |s|)
  {
  }

  lemma BytesUpTo(s: seq<Byte>, n: nat, n': nat)
    requires n' <= n && n' <= |s|
    ensures n' <= Amount(s, Bytes(n)) <= n
  {
  }

  /** Where a scan for a line may stop: nothing before `n` was a newline, except perhaps the last. */
  lemma LineStops(s: seq<Byte>, maxlen: nat, n: nat)
    requires n <= |s| && n <= ThroughNewline(s) && (n == 0 || n < maxlen)
    ensures n <= Amount(s, Line(maxlen))
    ensures maxlen <= n + 1 || n == |s| || (n > 0 && s[n - 1] == NEWLINE) ==> n == Amount(s, Line(maxlen))
  {
    var t := ThroughNewline(s);
    if 0 < n < t {
      assert s[n - 1] == s[..t - 1][n - 1];
    }
  }

  /** A line is what the source calls one: a newline at its end and nowhere else. */
  predicate WholeLine(l: seq<Byte>)
  {
    l != [] && l[|l| - 1] == NEWLINE && NEWLINE !in l[..|l| - 1]
  }

  lemma {:induction false} FirstLine(l: seq<Byte>, rest: seq<Byte>)
    requires WholeLine(l)
    ensures ThroughNewline(l + rest) == |l|
  {
    if |l| == 1 {
    } else {
      var tail := l[1..];
      assert l[0] == l[..|l| - 1][0];
      assert tail[..|tail| - 1] == l[..|l| - 1][1..];
      FirstLine(tail, rest);
      assert (l + rest)[1..] == tail + rest;
    }
  }

  /** Reading line by line gives back exactly the lines a text was made of, as long as
      each leaves room for the closing NUL. */
  lemma {:induction false} LinesComeBack(lines: seq<seq<Byte>>, calls: seq<Call>)
    requires |calls| == |lines|
    requires forall i :: 0 <= i < |lines| ==>
      WholeLine(lines[i]) && calls[i].Line? && |lines[i]| < calls[i].maxlen
    ensures Answers(Joined(lines), calls) == lines
    ensures Rest(Joined(lines), calls) == []
    decreases |lines|
  {
    if lines == [] {
    } else {
      var s, rest := Joined(lines), Joined(lines[1..]);
      FirstLine(lines[0], rest);
      assert Amount(s, calls[0]) == |lines[0]|;
      assert s[..|lines[0]|] == lines[0] && s[|lines[0]|..] == rest;
      LinesComeBack(lines[1..], calls[1..]);
    }
  }

  /** Reading a text in the parts it was made of, lines by line calls and anything else by its
      number of bytes, gives back the parts. */
  lemma {:induction false} PartsComeBack(parts: seq<seq<Byte>>, calls: seq<Call>)
    requires |calls| == |parts|
    requires forall i :: 0 <= i < |parts| ==>
      if calls[i].Line? then WholeLine(parts[i]) && |parts[i]| < calls[i].maxlen else calls[i].n == |parts[i]|
    ensures Answers(Joined(parts), calls) == parts
    ensures Rest(Joined(parts), calls) == []
    decreases |parts|
  {
    if parts != [] {
      hide Answers, Rest, ThroughNewline, WholeLine;
      var s, rest := Joined(parts), Joined(parts[1..]);
      assert Amount(s, calls[0]) == |parts[0]| by {
        if calls[0].Line? { FirstLine(parts[0], rest); }
      }
      assert s[..|parts[0]|] == parts[0] && s[|parts[0]|..] == rest;
      PartsComeBack(parts[1..], calls[1..]);
      NextCall(s, calls, 0, |parts[0]|);
      assert calls[0..] == calls;
    } else {
      AllAnswered([], calls);
    }
  }

  /** What a client can see of one answer: a line fits its buffer, holds no newline but at
      its end, and ends in one, is as long as fits or comes at the end of the stream; a
      request for bytes is answered in full, or in part at the end of the stream. */
  predicate AsAsked(answer: seq<Byte>, call: Call, ended: bool) {
    match call
    case Line(maxlen) =>
      && |answer| <= (if maxlen == 0 then 0 else maxlen - 1)
      && (answer != [] ==> NEWLINE !in answer[..|answer| - 1])
      && (ended || |answer| + 1 >= maxlen || (answer != [] && answer[|answer| - 1] == NEWLINE))
    case Bytes(n) => |answer| == n || (|answer| < n && ended)
  }

  /** Every answer of a session is what was asked for. */
  lemma {:induction false} AnswersFit(s: seq<Byte>, calls: seq<Call>)
    ensures forall k :: 0 <= k < |calls| ==> AsAsked(Answers(s, calls)[k], calls[k], Rest(s, calls) == [])
    decreases |calls|
  {
    if calls != [] {
      hide Answers, Rest, Amount, AsAsked;
      var n := Amount(s, calls[0]);
      NextCall(s, calls, 0, n);
      assert calls[0..] == calls;
      AnswersFit(s[n..], calls[1..]);
      NothingMore(calls[1..]);
      OneFits(s, calls[0], n);
      EndedStays(s[..n], calls[0], s[n..] == [], Rest(s, calls) == []);
    }
  }

  lemma OneFits(s: seq<Byte>, call: Call, n: nat)
    requires n == Amount(s, call)
    ensures AsAsked(s[..n], call, s[n..] == [])
  {
    hide Amount, ThroughNewline;
    match call {
      case Line(maxlen) =>
        LineExactly(s, maxlen, n);
        assert n > 0 ==> s[..n][..n - 1] == s[..n - 1];
      case Bytes(m) => BytesExactly(s, m, n);
    }
  }

  lemma EndedStays(answer: seq<Byte>, call: Call, was: bool, ended: bool)
    requires AsAsked(answer, call, was) && (was ==> ended)
    ensures AsAsked(answer, call, ended)
  {
  }

  lemma {:induction false} NothingMore(calls: seq<Call>)
    ensures Rest([], calls) == []
    decreases |calls|
  {
    if calls != [] {
      NothingMore(calls[1..]);
    }
  }

  /** Where a request for bytes is cut makes no difference. */
  lemma SplitRequest(s: seq<Byte>, a: nat, b: nat)
    ensures Joined(Answers(s, [Bytes(a), Bytes(b)])) == Joined(Answers(s, [Bytes(a + b)]))
    ensures Rest(s, [Bytes(a), Bytes(b)]) == Rest(s, [Bytes(a + b)])
  {
    var n, m := Amount(s, Bytes(a)), Amount(s[Amount(s, Bytes(a))..], Bytes(b));
    assert [Bytes(a), Bytes(b)][1..] == [Bytes(b)] && [Bytes(b)][1..] == [];
    assert [Bytes(a + b)][1..] == [];
    assert Answers(s[n..], [Bytes(b)]) == [s[n..][..m]];
    assert Answers(s, [Bytes(a), Bytes(b)]) == [s[..n], s[n..][..m]];
    assert Answers(s, [Bytes(a + b)]) == [s[..n + m]];
    assert [s[..n], s[n..][..m]][1..] == [s[n..][..m]];
    assert s[..n] + s[n..][..m] == s[..n + m];
    assert s[n..][m..] == s[n + m..];
  }

  lemma NextCall(s: seq<Byte>, calls: seq<Call>, i: nat, n: nat)
    requires i < |calls| && n == Amount(s, calls[i])
    ensures Answers(s, calls[i..]) == [s[..n]] + Answers(s[n..], calls[i + 1..])
    ensures Rest(s, calls[i..]) == Rest(s[n..], calls[i + 1..])
  {
    hide Amount, ThroughNewline;
    assert calls[i..][1..] == calls[i + 1..];
  }

  lemma NothingAnswered(s: seq<Byte>, calls: seq<Call>)
    ensures Answers(s, calls) == [] + Answers(s, calls[0..]) && Rest(s, calls) == Rest(s, calls[0..])
  {
    assert calls[0..] == calls;
  }

  lemma AllAnswered(s: seq<Byte>, calls: seq<Call>)
    ensures Answers(s, calls[|calls|..]) == [] && Rest(s, calls[|calls|..]) == s
  {
  }
}
