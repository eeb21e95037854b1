/** The parser of hquin/hquin/http/HTTPRequest.cpp, cursors and all. */
module HttpRequest {
  import opened HttpMessage

  /** How a call of handle ends; Threw stands for std::length_error. */
  datatype Ending = TooShort | Returned | Threw

  /** std::string::find, with |s| in the place of npos. */
  method Find(s: string, c: char, from: nat) returns (at: nat)
    ensures at == |s| <==> c !in Drop(s, from)
    ensures at < |s| ==> from <= at && s[from..at] == Before(Drop(s, from), c)
    ensures at < |s| ==> Drop(s, at + 1) == After(Drop(s, from), c)
    ensures at <= |s|
  {
    if from > |s| { return |s|; }
    at := from;
    while at < |s| && s[at] != c
      invariant from <= at <= |s|
      invariant c !in s[from..at]
    {
      at := at + 1;
    }
    if at < |s| {
      assert s[from..] == s[from..at] + [c] + s[at + 1..];
      SplitAt(s[from..at], c, s[at + 1..]);
    }
  }

  method FindCrLf(s: string) returns (found: bool)
    ensures found == HasCrLf(s)
  {
    var at := 0;
    while at + 1 < |s|
      invariant at <= |s| && HasCrLf(s) == HasCrLf(s[at..])
    {
      assert s[at..][1..] == s[at + 1..];
      if s[at] == '\r' && s[at + 1] == '\n' { return true; }
      at := at + 1;
    }
    return false;
  }

  class HTTPRequest {
    var verb: Verb
    var version: Version
    var path: string
    var headers: Headers

    function Read(): Parts
      reads this
    {
      Parts(verb, path, version, headers)
    }

    constructor ()
      ensures Read() == Parts(Invalid, "", Unknown, map[])
    {
      verb, version, path, headers := Invalid, Unknown, "", map[];
    }

    method SetMethod(text: string) returns (known: bool)
      modifies this`verb
      ensures verb == VerbOf(text) && known == (verb != Invalid)
    {
      if text == "GET" { verb := Get; }
      else if text == "POST" { verb := Post; }
      else { verb := Invalid; }
      return verb != Invalid;
    }

    method SetVersion(text: string) returns (known: bool)
      modifies this`version
      ensures version == VersionOf(text) && known == (version != Unknown)
    {
      if text == "HTTP/1.0" { version := Http10; }
      else if text == "HTTP/1.1" { version := Http11; }
      else { version := Unknown; }
      return version != Unknown;
    }

    /** The loop over the header lines; `end` stands on the CR of the request line. */
    method HandleHeaders(request: string, from: nat) returns (ending: Ending)
      requires from < |request|
      modifies this`headers
      ensures ScanFields(Drop(request, from + 2), old(headers)) ==
        if ending == Threw then Cut(headers) else Scanned(headers)
      ensures ending == Threw || ending == Returned
    {
      hide *;
      var end := from;
      while true
        invariant end < |request|
        invariant ScanFields(Drop(request, end + 2), headers) ==
          ScanFields(Drop(request, from + 2), old(headers))
        decreases |request| - end
      {
        var begin := end + 2;
        ghost var line := Drop(request, begin);
        ScanStep(line, headers);
        end := Find(request, ' ', begin);
        if end == |request| { return Returned; }
        if end == begin { return Threw; }
        ghost var name := request[begin..end];
        var field := request[begin..end - 1];
        assert field == name[..|name| - 1];

        begin := end + 1;
        end := Find(request, '\r', begin);
        if end == |request| { return Returned; }
        ScanOn(line, headers, name, Drop(request, begin));
        Behind(request, end);
        var value := request[begin..end];

        headers := Emplace(headers, field, value);
      }
    }

    /** handle: std::length_error is thrown where a find has failed and the range it was to
        close would end before it begins. */
    method Handle(request: string) returns (ending: Ending)
      modifies this
      ensures match Parse(request, old(Read()))
        case Incomplete => ending == TooShort && Read() == old(Read())
        case Broken(parts) => ending == Threw && Read() == parts
        case Done(parts) => ending == Returned && Read() == parts
    {
      hide Before, After, HasCrLf, ScanFields, Drop, VerbOf, VersionOf, Parse;
      ParseStops(request, Read());
      DropNothing(request);
      var complete := FindCrLf(request);
      if !complete { return TooShort; }

      var end := Find(request, ' ', 0);
      if end == |request| { return Threw; }
      var _ := SetMethod(request[..end]);

      var begin := end + 1;
      end := Find(request, ' ', begin);
      if end == |request| { return Threw; }
      path := request[begin..end];

      begin := end + 1;
      end := Find(request, '\r', begin);
      if end == |request| { return Threw; }
      Behind(request, end);
      var _ := SetVersion(request[begin..end]);

      Behind(request, end);
      ending := HandleHeaders(request, end);
      ghost var s1 := After(request, ' ');
      ParseOn(request, old(Read()), s1, After(s1, ' '), if ending == Threw then Cut(headers) else Scanned(headers));
    }

    /** getHeader */
    method GetHeader(field: string) returns (result: string)
      ensures result == if field in headers then headers[field] else ""
    {
      result := "";
      if field in headers { result := headers[field]; }
    }
  }

  lemma DropNothing(s: string)
    ensures Drop(s, 0) == s
  {
  }

  lemma ScanStep(s: string, known: Headers)
    ensures ' ' !in s ==> ScanFields(s, known) == Scanned(known)
    ensures ' ' in s && Before(s, ' ') == [] ==> ScanFields(s, known) == Cut(known)
    ensures ' ' in s && Before(s, ' ') != [] && '\r' !in After(s, ' ') ==> ScanFields(s, known) == Scanned(known)
  {
  }

  lemma ScanOn(s: string, known: Headers, name: string, text: string)
    requires ' ' in s && name == Before(s, ' ') != [] && text == After(s, ' ') && '\r' in text
    ensures ScanFields(s, known) ==
      ScanFields(Drop(After(text, '\r'), 1), Emplace(known, name[..|name| - 1], Before(text, '\r')))
  {
  }

  /** The request line ends where headers begin. */
  lemma ParseOn(s: string, was: Parts, s1: string, s2: string, scan: Scan)
    requires HasCrLf(s) && ' ' in s && s1 == After(s, ' ') && ' ' in s1
    requires s2 == After(s1, ' ') && '\r' in s2
    requires scan == ScanFields(Drop(After(s2, '\r'), 1), was.headers)
    ensures var parts := Parts(VerbOf(Before(s, ' ')), Before(s1, ' '), VersionOf(Before(s2, '\r')), scan.headers);
      Parse(s, was) == if scan.Cut? then Broken(parts) else Done(parts)
  {
  }

  lemma ParseStops(s: string, was: Parts)
    ensures !HasCrLf(s) ==> Parse(s, was) == Incomplete
    ensures HasCrLf(s) && ' ' !in s ==> Parse(s, was) == Broken(was)
    ensures HasCrLf(s) && ' ' in s && ' ' !in After(s, ' ') ==>
      Parse(s, was) == Broken(was.(verb := VerbOf(Before(s, ' '))))
    ensures HasCrLf(s) && ' ' in s && ' ' in After(s, ' ') && '\r' !in After(After(s, ' '), ' ') ==>
      Parse(s, was) == Broken(was.(verb := VerbOf(Before(s, ' ')), path := Before(After(s, ' '), ' ')))
  {
  }

  lemma Behind(s: string, at: nat)
    requires at < |s|
    ensures Drop(s, at + 2) == Drop(Drop(s, at + 1), 1)
  {
  }
}
