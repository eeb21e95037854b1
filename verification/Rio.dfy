/** The buffered reader of tinyhttp/rio.c. */
module Rio {
  import opened RioSpec

  const RIO_BUFSIZE := 4096

  /** What one read(2) may do: be interrupted (EINTR), fail, or deliver up to n bytes. */
  datatype Outcome = Interrupted | Failed | Ready(n: nat)

  function Faults(script: seq<Outcome>): nat
  {
    if script == [] then 0 else (if script[0].Failed? then 1 else 0) + Faults(script[1..])
  }

  /** A file descriptor: the bytes it has yet to deliver, and how the coming calls of
      read(2) will turn out. Once the script has run out, reads deliver all they can. */
  class Descriptor {
    var data: seq<Byte>
    var script: seq<Outcome>

    constructor (data: seq<Byte>, script: seq<Outcome>)
      ensures this.data == data && this.script == script
    {
      this.data := data;
      this.script := script;
    }

    /** read(2) into the whole of `into`. A count of 0 is the end of the stream. */
    method Read(into: array<Byte>) returns (n: int, interrupted: bool)
      requires 0 < into.Length
      modifies this, into
      ensures -1 <= n <= into.Length
      ensures n >= 0 ==> n <= |old(data)| && (n == 0 <==> old(data) == [])
      ensures n >= 0 ==> into[..n] == old(data)[..n] && data == old(data)[n..]
      ensures n == -1 ==> data == old(data)
      ensures n == -1 ==> old(script) != []
      ensures n == -1 && interrupted ==> Faults(script) == old(Faults(script))
      ensures n == -1 && !interrupted ==> Faults(script) + 1 == old(Faults(script))
      ensures n >= 0 ==> Faults(script) == old(Faults(script))
      ensures script == if old(script) == [] then [] else old(script)[1..]
    {
      var most := Min(into.Length, |data|);
      interrupted := false;
      if script != [] {
        var next := script[0];
        script := script[1..];
        match next {
          case Interrupted => return -1, true;
          case Failed => return -1, false;
          case Ready(k) => most := if data == [] then 0 else Min(most, if k == 0 then 1 else k);
        }
      }
      n := most;
      forall i | 0 <= i < n { into[i] := data[i]; }
      data := data[n..];
    }
  }

  /** A client's buffer after `text` was stored at its start, closed by a NUL or not. */
  function Written(was: seq<Byte>, text: seq<Byte>, closed: bool): (r: seq<Byte>)
    requires |text| < |was|
    ensures |r| == |was|
  {
    if closed then text + [NUL] + was[|text| + 1..] else text + was[|text|..]
  }

  lemma NothingYet(was: seq<Byte>, all: seq<Byte>)
    requires was != []
    ensures was == Written(was, all[..0], false)
  {
  }

  lemma Close(was: seq<Byte>, text: seq<Byte>)
    requires |text| < |was|
    ensures Written(was, text, false)[|text| := NUL] == Written(was, text, true)
  {
  }

  /** Overwriting one more byte of a copy in progress. */
  lemma OneMore(was: seq<Byte>, all: seq<Byte>, k: nat)
    requires k < |all| && k < |was|
    ensures k + 1 < |was| ==> Written(was, all[..k], false)[k := all[k]] == Written(was, all[..k + 1], false)
  {
  }

  /** Handing over part of the cache takes that part off the stream. */
  lemma Drained(cached: seq<Byte>, data: seq<Byte>, n: nat)
    requires n <= |cached|
    ensures (cached + data)[..n] == cached[..n]
    ensures (cached + data)[n..] == cached[n..] + data
  {
  }

  lemma FirstOff(all: seq<Byte>, k: nat)
    ensures k < |all| ==> all[k..][0] == all[k] && all[k..][1..] == all[k + 1..]
  {
  }

  lemma OneByte(one: seq<Byte>, was: seq<Byte>, all: seq<Byte>)
    requires |was| == |one| == 1
    ensures all != [] && one == was[..0] + all[..1] + was[1..] ==> one[0] == all[0]
  {
    assert all != [] ==> (was[..0] + all[..1] + was[1..])[0] == all[..1][0];
  }

  lemma MoreBytes(was: seq<Byte>, all: seq<Byte>, k: nat, n: nat)
    requires k + n <= |all| && k + n <= |was|
    ensures all[..k] + all[k..][..n] + was[k + n..] == all[..k + n] + was[k + n..]
    ensures (all[..k] + was[k..])[..k] == all[..k]
    ensures (all[..k] + was[k..])[k + n..] == was[k + n..]
    ensures all[k..][n..] == all[k + n..]
  {
  }

  /** A client's buffer after k bytes of `all` were stored at its start. */
  function Copied(was: seq<Byte>, all: seq<Byte>, k: nat): (r: seq<Byte>)
    requires k <= |was| && k <= |all|
    ensures |r| == |was|
  {
    all[..k] + was[k..]
  }

  lemma CopiedIs(was: seq<Byte>, all: seq<Byte>, k: nat)
    requires k <= |was| && k <= |all|
    ensures Copied(was, all, k) == all[..k] + was[k..]
  {
  }

  lemma NothingStored(was: seq<Byte>, all: seq<Byte>)
    ensures Copied(was, all, 0) == was && all[0..] == all
  {
  }

  lemma AtEnd(all: seq<Byte>, k: nat)
    requires k <= |all|
    ensures k == |all| <==> all[k..] == []
  {
  }

  lemma SomeStored(usr: seq<Byte>, before: seq<Byte>, was: seq<Byte>, all: seq<Byte>, k: nat, n: nat)
    requires k + n <= |all| && k + n <= |was| && before == Copied(was, all, k)
    requires usr == before[..k] + all[k..][..n] + before[k + n..]
    ensures usr == Copied(was, all, k + n) && all[k..][n..] == all[k + n..]
  {
    MoreBytes(was, all, k, n);
  }

  class Reader {
    const fd: Descriptor
    const buf: array<Byte>
    var ptr: nat
    var cnt: int

    ghost predicate Valid()
      reads this
    {
      && buf.Length == RIO_BUFSIZE
      && cnt <= RIO_BUFSIZE
      && (cnt > 0 ==> ptr + cnt <= RIO_BUFSIZE)
    }

    /** The unbuffered view: what is cached and not yet handed over, then what the kernel holds. */
    ghost function Unread(): seq<Byte>
      requires Valid()
      reads this, fd, buf
    {
      (if cnt > 0 then buf[ptr..ptr + cnt] else []) + fd.data
    }

    /** rio_readinitb */
    constructor (fd: Descriptor)
      ensures Valid() && fresh(buf) && this.fd == fd
      ensures Unread() == fd.data
    {
      this.fd := fd;
      buf := new Byte[RIO_BUFSIZE];
      cnt := 0;
      ptr := 0;
    }

    /** The refill loop of rio_read: afterwards the cache holds something, unless the
        stream has ended or a read failed. */
    method Refill() returns (r: int)
      requires Valid()
      modifies this, fd, buf
      ensures Valid()
      ensures Unread() == old(Unread())
      ensures r == -1 || r == 0 || r == 1
      ensures r == 1 ==> cnt > 0
      ensures r == 0 ==> old(Unread()) == []
      ensures Faults(fd.script) + (if r == -1 then 1 else 0) == old(Faults(fd.script))
    {
      while cnt <= 0
        invariant Valid() && Unread() == old(Unread())
        invariant Faults(fd.script) == old(Faults(fd.script))
        decreases |fd.script|, if cnt <= 0 then 1 else 0
      {
        var interrupted;
        cnt, interrupted := fd.Read(buf);
        if cnt < 0 {
          if !interrupted { return -1; }
        } else if cnt == 0 {
          return 0;
        } else {
          ptr := 0;
        }
      }
      return 1;
    }

    /** The copying of rio_read: part of the cache goes to the client. */
    method HandOver(usr: array<Byte>, at: nat, count: nat)
      requires Valid() && usr != buf && at + count <= usr.Length && 0 < cnt && count <= cnt
      modifies this`ptr, this`cnt, usr
      ensures Valid() && count <= |old(Unread())| && Unread() == old(Unread())[count..]
      ensures usr[..] == old(usr[..at]) + old(Unread())[..count] + old(usr[at + count..])
    {
      ghost var cached, was := buf[ptr..ptr + cnt], usr[..];
      forall i | 0 <= i < count { usr[at + i] := buf[ptr + i]; }
      assert usr[..] == was[..at] + cached[..count] + was[at + count..];
      ptr := ptr + count;
      cnt := cnt - count;
      assert buf[ptr..ptr + cnt] == cached[count..];
      Drained(cached, fd.data, count);
    }

    /** rio_read: like read(2), at most n bytes and as few as one, into usr from `at` on. */
    method ReadSome(usr: array<Byte>, at: nat, n: nat) returns (r: int)
      requires Valid() && usr != buf && at + n <= usr.Length
      modifies this, fd, buf, usr
      ensures Valid()
      ensures -1 <= r <= n && r <= |old(Unread())|
      ensures r == 0 ==> n == 0 || old(Unread()) == []
      ensures r == -1 ==> Unread() == old(Unread()) && usr[..] == old(usr[..])
      ensures r >= 0 ==> Unread() == old(Unread())[r..]
      ensures r >= 0 ==> usr[..] == old(usr[..at]) + old(Unread())[..r] + old(usr[at + r..])
      ensures Faults(fd.script) + (if r == -1 then 1 else 0) == old(Faults(fd.script))
    {
      hide Faults;
      var filled := Refill();
      if filled != 1 {
        return filled;
      }
      r := if cnt < n then cnt else n;
      HandOver(usr, at, r);
    }

    /** rio_read(rp, &c, 1) */
    method NextByte() returns (rc: int, c: Byte)
      requires Valid()
      modifies this, fd, buf
      ensures Valid()
      ensures rc == -1 || rc == 0 || rc == 1
      ensures rc == 1 ==> old(Unread()) != [] && c == old(Unread())[0] && Unread() == old(Unread())[1..]
      ensures rc == 0 ==> old(Unread()) == []
      ensures rc != 1 ==> Unread() == old(Unread())
      ensures Faults(fd.script) + (if rc == -1 then 1 else 0) == old(Faults(fd.script))
    {
      hide *;
      var one := new Byte[1];
      ghost var was := one[..];
      rc := ReadSome(one, 0, 1);
      c := one[0];
      OneByte(one[..], was, old(Unread()));
    }

    /** The step of rio_readlineb's loop: read one byte and store it behind the others. */
    method StoreByte(usr: array<Byte>, bufp: nat, ghost was: seq<Byte>, ghost all: seq<Byte>)
      returns (rc: int, c: Byte)
      requires Valid() && usr != buf && bufp <= |all| && bufp + 1 < |was|
      requires Unread() == all[bufp..] && usr[..] == Written(was, all[..bufp], false)
      modifies this, fd, buf, usr
      ensures Valid()
      ensures rc == -1 || rc == 0 || rc == 1
      ensures rc == 1 ==> bufp < |all| && c == all[bufp] && Unread() == all[bufp + 1..]
      ensures rc == 1 ==> usr[..] == Written(was, all[..bufp + 1], false)
      ensures rc == 0 ==> bufp == |all|
      ensures rc != 1 ==> Unread() == all[bufp..] && usr[..] == old(usr[..])
      ensures Faults(fd.script) + (if rc == -1 then 1 else 0) == old(Faults(fd.script))
    {
      hide *;
      rc, c := NextByte();
      if rc == 1 {
        FirstOff(all, bufp);
        usr[bufp] := c;
        OneMore(was, all, bufp);
      }
    }

    /** The loop of rio_readlineb: store bytes up to maxlen - 1 of them, a newline, the end
        of the stream (rc == 0) or an error (rc == -1). */
    method CollectLine(usr: array<Byte>, maxlen: nat) returns (rc: int, bufp: nat)
      requires Valid() && usr != buf && maxlen <= usr.Length && 1 <= usr.Length
      modifies this, fd, buf, usr
      ensures Valid()
      ensures bufp <= |old(Unread())| && bufp <= ThroughNewline(old(Unread())) && bufp < usr.Length
      ensures bufp == 0 || bufp < maxlen
      ensures Unread() == old(Unread())[bufp..]
      ensures usr[..] == Written(old(usr[..]), old(Unread())[..bufp], false)
      ensures rc == -1 || rc == 0 || rc == 1
      ensures rc == 0 ==> bufp == |old(Unread())| && 1 < maxlen
      ensures rc == 1 ==> maxlen <= bufp + 1 || (bufp > 0 && old(Unread())[bufp - 1] == NEWLINE)
      ensures Faults(fd.script) + (if rc == -1 then 1 else 0) == old(Faults(fd.script))
    {
      hide *;
      ghost var all := Unread();
      ghost var was := usr[..];
      NothingYet(was, all);
      var n := 1;
      rc, bufp := 1, 0;
      while n < maxlen
        invariant Valid()
        invariant n == bufp + 1 && (n <= maxlen || n == 1)
        invariant bufp <= |all| && bufp < ThroughNewline(all)
        invariant Unread() == all[bufp..]
        invariant usr[..] == Written(was, all[..bufp], false)
        invariant rc == 1
        invariant Faults(fd.script) == old(Faults(fd.script))
      {
        var c;
        rc, c := StoreByte(usr, bufp, was, all);
        if rc != 1 { break; }
        bufp := bufp + 1;
        n := n + 1;
        if c == NEWLINE { break; }
      }
    }

    /** rio_readlineb. The caller owns max(maxlen, 1) bytes of usr; `got` of them came from
        the stream. A line is closed by a NUL, except at the end of the stream, where
        nothing is written at all. */
    method ReadLine(usr: array<Byte>, maxlen: nat) returns (r: int, ghost got: nat)
      requires Valid() && usr != buf && maxlen <= usr.Length && 1 <= usr.Length
      modifies this, fd, buf, usr
      ensures Valid()
      ensures got <= Amount(old(Unread()), Line(maxlen)) && got < usr.Length
      ensures Unread() == old(Unread())[got..]
      ensures r != -1 ==> r == got == Amount(old(Unread()), Line(maxlen))
      ensures usr[..] == Written(old(usr[..]), old(Unread())[..got], r != -1 && (got > 0 || maxlen <= 1))
      ensures r == -1 || r >= 0
      ensures r != -1 ==> IsLine(old(Unread()), maxlen, r)
      ensures r > 0 ==> usr[r] as int == 0
      ensures Faults(fd.script) + (if r == -1 then 1 else 0) == old(Faults(fd.script))
    {
      hide *;
      var rc, bufp := CollectLine(usr, maxlen);
      LineExactly(old(Unread()), maxlen, bufp);
      LineStops(old(Unread()), maxlen, bufp);
      if rc == 0 && bufp == 0 {
        return 0, 0;
      } else if rc == -1 {
        return -1, bufp;
      }
      Close(old(usr[..]), old(Unread())[..bufp]);
      usr[bufp] := NUL;
      MarksAre();
      return bufp, bufp;
    }

    /** The step of rio_readnb's loop: what one rio_read hands over goes behind what is there. */
    method StoreSome(usr: array<Byte>, bufp: nat, nleft: nat, ghost was: seq<Byte>, ghost all: seq<Byte>)
      returns (nread: int)
      requires Valid() && usr != buf && bufp + nleft <= usr.Length == |was| && bufp <= |all|
      requires Unread() == all[bufp..] && usr[..] == Copied(was, all, bufp)
      modifies this, fd, buf, usr
      ensures Valid() && -1 <= nread <= nleft
      ensures nread == -1 ==> Unread() == all[bufp..] && usr[..] == Copied(was, all, bufp)
      ensures nread == 0 ==> nleft == 0 || bufp == |all|
      ensures nread >= 0 ==> bufp + nread <= |all| && Unread() == all[bufp + nread..]
      ensures nread >= 0 ==> usr[..] == Copied(was, all, bufp + nread)
      ensures Faults(fd.script) + (if nread == -1 then 1 else 0) == old(Faults(fd.script))
    {
      hide *;
      nread := ReadSome(usr, bufp, nleft);
      if nread >= 0 {
        SomeStored(usr[..], old(usr[..]), was, all, bufp, nread);
      }
    }

    /** The loop of rio_readnb: until n bytes are there, the stream has ended or a read failed. */
    method CollectBytes(usr: array<Byte>, n: nat, ghost was: seq<Byte>, ghost all: seq<Byte>)
      returns (failed: bool, nleft: nat, bufp: nat)
      requires Valid() && usr != buf && n <= usr.Length == |was|
      requires Unread() == all && usr[..] == was
      modifies this, fd, buf, usr
      ensures Valid() && bufp + nleft == n && bufp <= |all|
      ensures Unread() == all[bufp..] && usr[..] == Copied(was, all, bufp)
      ensures !failed ==> nleft == 0 || bufp == |all|
      ensures Faults(fd.script) + (if failed then 1 else 0) == old(Faults(fd.script))
    {
      hide *;
      NothingStored(was, all);
      nleft, bufp, failed := n, 0, false;
      while nleft > 0
        invariant Valid() && bufp + nleft == n && bufp <= |all| && !failed
        invariant Unread() == all[bufp..] && usr[..] == Copied(was, all, bufp)
        invariant Faults(fd.script) == old(Faults(fd.script))
        decreases nleft
      {
        var nread := StoreSome(usr, bufp, nleft, was, all);
        if nread < 0 {
          failed := true;
          break;
        } else if nread == 0 {
          break;
        }
        nleft, bufp := nleft - nread, bufp + nread;
      }
    }

    /** rio_readnb */
    method ReadBytes(usr: array<Byte>, n: nat) returns (r: int, ghost got: nat)
      requires Valid() && usr != buf && n <= usr.Length
      modifies this, fd, buf, usr
      ensures Valid()
      ensures got <= n && got <= |old(Unread())|
      ensures got <= Amount(old(Unread()), Bytes(n))
      ensures Unread() == old(Unread())[got..]
      ensures r != -1 ==> r == got == Amount(old(Unread()), Bytes(n))
      ensures r != -1 ==> r == n || (r < n && Unread() == [])
      ensures usr[..] == old(Unread())[..got] + old(usr[got..])
      ensures Faults(fd.script) + (if r == -1 then 1 else 0) == old(Faults(fd.script))
    {
      hide *;
      ghost var all := Unread();
      ghost var was := usr[..];
      var failed, nleft, bufp := CollectBytes(usr, n, was, all);
      BytesUpTo(all, n, bufp);
      BytesExactly(all, n, bufp);
      AtEnd(all, bufp);
      CopiedIs(was, all, bufp);
      r, got := if failed then -1 else n - nleft, bufp;
    }
  }

  /** One error-free call into a buffer of the client's own. */
  method Answer(rio: Reader, call: Call) returns (answer: seq<Byte>)
    requires rio.Valid() && Faults(rio.fd.script) == 0
    modifies rio, rio.fd, rio.buf
    ensures rio.Valid() && Faults(rio.fd.script) == 0
    ensures |answer| == Amount(old(rio.Unread()), call)
    ensures answer == old(rio.Unread())[..|answer|]
    ensures rio.Unread() == old(rio.Unread())[|answer|..]
  {
    hide Faults, Amount;
    var r;
    match call {
      case Line(maxlen) =>
        var usr := new Byte[if maxlen == 0 then 1 else maxlen];
        ghost var got;
        r, got := rio.ReadLine(usr, maxlen);
        answer := usr[..r];
      case Bytes(n) =>
        var usr := new Byte[n];
        ghost var got;
        r, got := rio.ReadBytes(usr, n);
        answer := usr[..r];
    }
  }

  /** An error-free session: any calls in any order, on a descriptor whose reads come in
      any sizes, interrupted any number of times, give the answers of the plain stream. */
  method Session(rio: Reader, calls: seq<Call>) returns (answers: seq<seq<Byte>>)
    requires rio.Valid() && Faults(rio.fd.script) == 0
    modifies rio, rio.fd, rio.buf
    ensures rio.Valid()
    ensures answers == Answers(old(rio.Unread()), calls)
    ensures rio.Unread() == Rest(old(rio.Unread()), calls)
    ensures Joined(answers) + rio.Unread() == old(rio.Unread())
    ensures |answers| == |calls|
    ensures forall k :: 0 <= k < |calls| ==> AsAsked(answers[k], calls[k], rio.Unread() == [])
  {
    hide AsAsked, Answers, Rest, Amount, ThroughNewline, Joined, Faults;
    ghost var all := rio.Unread();
    answers := [];
    NothingAnswered(all, calls);
    for i := 0 to |calls|
      invariant rio.Valid() && Faults(rio.fd.script) == 0
      invariant Answers(all, calls) == answers + Answers(rio.Unread(), calls[i..])
      invariant Rest(all, calls) == Rest(rio.Unread(), calls[i..])
    {
      ghost var s := rio.Unread();
      var answer := Answer(rio, calls[i]);
      NextCall(s, calls, i, |answer|);
      answers := answers + [answer];
    }
    AllAnswered(rio.Unread(), calls);
    Transparent(all, calls);
    AnswersFit(all, calls);
  }
}
