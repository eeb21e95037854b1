/** Requests as hquin's http module understands them: what one looks like on the wire
    (sections 3.1.1 and 3.2 of RFC 7230), and what reading one back gives. */
module HttpMessage {

  datatype Verb = Invalid | Get | Post
  datatype Version = Unknown | Http10 | Http11

  type Headers = map<string, string>

  function VerbText(v: Verb): string {
    match v
    case Get => "GET"
    case Post => "POST"
    case Invalid => "INVALID"
  }

  function VersionText(v: Version): string {
    match v
    case Http10 => "HTTP/1.0"
    case Http11 => "HTTP/1.1"
    case Unknown => "UNKNOWN"
  }

  function VerbOf(s: string): Verb {
    if s == "GET" then Get else if s == "POST" then Post else Invalid
  }

  function VersionOf(s: string): Version {
    if s == "HTTP/1.0" then Http10 else if s == "HTTP/1.1" then Http11 else Unknown
  }

  datatype Field = Field(name: string, value: string)

  datatype Request = Request(verb: Verb, path: string, version: Version, fields: seq<Field>)

  function PrintField(f: Field): string { f.name + ": " + f.value + "\r\n" }

  function PrintFields(fs: seq<Field>): string {
    if fs == [] then "\r\n" else PrintField(fs[0]) + PrintFields(fs[1..])
  }

  /** A bodyless request on the wire. */
  function Print(r: Request): string {
    VerbText(r.verb) + " " + r.path + " " + VersionText(r.version) + "\r\n" + PrintFields(r.fields)
  }

  /** The first field of a name is the one that counts; `known` came before. */
  function FirstOfEach(fs: seq<Field>, known: Headers): Headers {
    if fs == [] then known
    else FirstOfEach(fs[1..], Emplace(known, fs[0].name, fs[0].value))
  }

  /** std::map::emplace */
  function Emplace(h: Headers, name: string, value: string): Headers {
    if name in h then h else h[name := value]
  }

  /** What stands before the first c, and what behind it. */
  function Before(s: string, c: char): (r: string)
    ensures c !in r
    ensures s == if c in s then r + [c] + After(s, c) else r
  {
    if s == [] || s[0] == c then [] else [s[0]] + Before(s[1..], c)
  }

  function After(s: string, c: char): (r: string)
    ensures s != [] ==> |r| < |s|
    ensures c !in s ==> r == []
  {
    if s == [] then [] else if s[0] == c then s[1..] else After(s[1..], c)
  }

  function Drop(s: string, n: nat): (r: string)
    ensures |r| <= |s|
  {
    if n <= |s| then s[n..] else []
  }

  /** What becomes of the headers. Cut: an empty name before a space, which the parser
      turns into a range that ends before it begins (std::length_error). */
  datatype Scan = Scanned(headers: Headers) | Cut(headers: Headers)

  /** Header lines, each a name closed by one character and a space, then a value up to CR. */
  function ScanFields(s: string, known: Headers): Scan
    decreases |s|
  {
    if ' ' !in s then Scanned(known)
    else if Before(s, ' ') == [] then Cut(known)
    else if '\r' !in After(s, ' ') then Scanned(known)
    else ScanFields(NextLine(s), AddField(s, known))
  }

  /** Behind the CR that ends a header line, and one more character. */
  function NextLine(s: string): (r: string)
    ensures s != [] ==> |r| < |s|
  {
    Drop(After(After(s, ' '), '\r'), 1)
  }

  function AddField(s: string, known: Headers): Headers
    requires Before(s, ' ') != []
  {
    var name := Before(s, ' ');
    Emplace(known, name[..|name| - 1], Before(After(s, ' '), '\r'))
  }

  /** What handle makes of a text: Incomplete when it holds no CRLF at all; Broken when the
      request line has no end or a header line begins with a space (std::length_error),
      with the parts read before. */
  datatype Parsed =
    | Incomplete
    | Broken(parts: Parts)
    | Done(parts: Parts)

  datatype Parts = Parts(verb: Verb, path: string, version: Version, headers: Headers)

  predicate HasCrLf(s: string) {
    |s| >= 2 && ((s[0] == '\r' && s[1] == '\n') || HasCrLf(s[1..]))
  }

  function Parse(s: string, was: Parts): Parsed {
    if !HasCrLf(s) then Incomplete
    else if ' ' !in s then Broken(was)
    else
      var p1, s1 := was.(verb := VerbOf(Before(s, ' '))), After(s, ' ');
      if ' ' !in s1 then Broken(p1)
      else
        var p2, s2 := p1.(path := Before(s1, ' ')), After(s1, ' ');
        if '\r' !in s2 then Broken(p2)
        else
          var p3 := p2.(version := VersionOf(Before(s2, '\r')));
          match ScanFields(Drop(After(s2, '\r'), 1), was.headers)
          case Scanned(h) => Done(p3.(headers := h))
          case Cut(h) => Broken(p3.(headers := h))
  }

  /** A text is cut where it was joined. */
  lemma {:induction false} SplitAt(a: string, c: char, rest: string)
    requires c !in a
    ensures c in a + [c] + rest
    ensures Before(a + [c] + rest, c) == a && After(a + [c] + rest, c) == rest
  {
    var s := a + [c] + rest;
    assert s[|a|] == c;
    if a == [] {
      assert s[1..] == rest;
    } else {
      assert s[0] == a[0] && a[0] in a;
      assert s[1..] == a[1..] + [c] + rest;
      SplitAt(a[1..], c, rest);
    }
  }

  lemma {:induction false} CrLfFound(a: string, b: string)
    ensures HasCrLf(a + "\r\n" + b)
    decreases |a|
  {
    if a == [] {
      assert "" + "\r\n" + b == "\r\n" + b;
    } else {
      CrLfFound(a[1..], b);
      assert (a + "\r\n" + b)[1..] == a[1..] + "\r\n" + b;
    }
  }

  predicate CleanField(f: Field) { ' ' !in f.name && '\r' !in f.value }

  predicate Clean(r: Request) {
    ' ' !in r.path && forall i :: 0 <= i < |r.fields| ==> CleanField(r.fields[i])
  }

  lemma ScanOne(f: Field, rest: string, known: Headers)
    requires CleanField(f)
    ensures ScanFields(PrintField(f) + rest, known) == ScanFields(rest, Emplace(known, f.name, f.value))
  {
    hide Before, After, Emplace;
    var s, name, tail := PrintField(f) + rest, f.name + ":", "\n" + rest;
    var value := f.value + ['\r'] + tail;
    assert s == name + [' '] + value;
    SplitAt(name, ' ', value);
    SplitAt(f.value, '\r', tail);
    assert name[..|name| - 1] == f.name && tail[1..] == rest;
  }

  lemma {:induction false} ScanPrinted(fs: seq<Field>, known: Headers)
    requires forall i :: 0 <= i < |fs| ==> CleanField(fs[i])
    ensures ScanFields(PrintFields(fs), known) == Scanned(FirstOfEach(fs, known))
  {
    if fs == [] {
    } else {
      ScanOne(fs[0], PrintFields(fs[1..]), known);
      ScanPrinted(fs[1..], Emplace(known, fs[0].name, fs[0].value));
    }
  }

  function Meaning(r: Request, known: Headers): Parts {
    Parts(r.verb, r.path, r.version, FirstOfEach(r.fields, known))
  }

  lemma RequestLine(r: Request)
    requires ' ' !in r.path
    ensures var s := Print(r);
      && HasCrLf(s) && ' ' in s && Before(s, ' ') == VerbText(r.verb)
      && var s1 := After(s, ' ');
      && ' ' in s1 && Before(s1, ' ') == r.path
      && var s2 := After(s1, ' ');
      && '\r' in s2 && Before(s2, '\r') == VersionText(r.version)
      && Drop(After(s2, '\r'), 1) == PrintFields(r.fields)
  {
    hide Before, After, HasCrLf, VerbText, VersionText, PrintFields;
    var v, w, tail := VerbText(r.verb), VersionText(r.version), PrintFields(r.fields);
    var s2 := w + ['\r'] + ("\n" + tail);
    var s1 := r.path + [' '] + s2;
    LineShape(v, r.path, w, tail);
    CrLfFound(v + " " + r.path + " " + w, tail);
    NoMarks(r);
    SplitAt(v, ' ', s1);
    SplitAt(r.path, ' ', s2);
    SplitAt(w, '\r', "\n" + tail);
    assert ("\n" + tail)[1..] == tail;
  }

  lemma LineShape(v: string, path: string, w: string, tail: string)
    ensures v + " " + path + " " + w + "\r\n" + tail ==
      v + [' '] + (path + [' '] + (w + ['\r'] + ("\n" + tail)))
  {
  }

  lemma NoMarks(r: Request)
    ensures ' ' !in VerbText(r.verb) && '\r' !in VersionText(r.version)
  {
  }

  /** Reading inverts printing, whatever the request held before: the last answer wins for
      method, path and version, the first for each header. */
  lemma RoundTrip(r: Request, was: Parts)
    requires Clean(r)
    ensures Parse(Print(r), was) == Done(Meaning(r, was.headers))
  {
    hide Before, After, HasCrLf, ScanFields, PrintFields, Print;
    RequestLine(r);
    ScanPrinted(r.fields, was.headers);
  }

  predicate CleanHeaders(h: Headers) {
    forall name :: name in h ==> ' ' !in name && '\r' !in h[name]
  }

  /** No parse, of any text at all, can yield a name with a space or a value with a CR. */
  lemma {:induction false} ScanIsClean(s: string, known: Headers)
    requires CleanHeaders(known)
    ensures CleanHeaders(ScanFields(s, known).headers)
    decreases |s|
  {
    if ' ' in s && Before(s, ' ') != [] && '\r' in After(s, ' ') {
      AddIsClean(s, known);
      ScanIsClean(NextLine(s), AddField(s, known));
    }
  }

  lemma AddIsClean(s: string, known: Headers)
    requires CleanHeaders(known) && Before(s, ' ') != []
    ensures CleanHeaders(AddField(s, known))
  {
    var name := Before(s, ' ');
    assert forall c :: c in name[..|name| - 1] ==> c in name;
  }

  predicate DistinctNames(fs: seq<Field>) {
    forall i, j :: 0 <= i < j < |fs| ==> fs[i].name != fs[j].name
  }

  lemma {:induction false} EveryFieldCounts(fs: seq<Field>, known: Headers, i: nat)
    requires DistinctNames(fs) && i < |fs|
    requires forall j :: 0 <= j < |fs| ==> fs[j].name !in known
    ensures fs[i].name in FirstOfEach(fs, known)
    ensures FirstOfEach(fs, known)[fs[i].name] == fs[i].value
  {
    var next := Emplace(known, fs[0].name, fs[0].value);
    if i == 0 {
      KnownStays(fs[1..], next, fs[0].name);
    } else {
      EveryFieldCounts(fs[1..], next, i - 1);
    }
  }

  lemma {:induction false} KnownStays(fs: seq<Field>, known: Headers, name: string)
    requires name in known
    ensures name in FirstOfEach(fs, known) && FirstOfEach(fs, known)[name] == known[name]
  {
    if fs == [] {
    } else {
      KnownStays(fs[1..], Emplace(known, fs[0].name, fs[0].value), name);
    }
  }

  predicate IsFirst(fs: seq<Field>, name: string, i: nat) {
    i < |fs| && fs[i].name == name && forall j :: 0 <= j < i ==> fs[j].name != name
  }

  /** What a header lookup finds: the value known before, else that of the first field of
      the name, and nothing when there is no such field. */
  lemma {:induction false} FirstCounts(fs: seq<Field>, known: Headers, name: string)
    ensures name in known ==> name in FirstOfEach(fs, known) && FirstOfEach(fs, known)[name] == known[name]
    ensures name !in known ==> forall i: nat :: IsFirst(fs, name, i) ==>
      name in FirstOfEach(fs, known) && FirstOfEach(fs, known)[name] == fs[i].value
    ensures name !in known && name in FirstOfEach(fs, known) ==> exists i: nat :: IsFirst(fs, name, i)
  {
    if fs != [] {
      var next := Emplace(known, fs[0].name, fs[0].value);
      FirstCounts(fs[1..], next, name);
      if name !in known {
        forall i: nat | IsFirst(fs, name, i)
          ensures name in FirstOfEach(fs, known) && FirstOfEach(fs, known)[name] == fs[i].value
        {
          assert i > 0 ==> IsFirst(fs[1..], name, i - 1);
        }
        if fs[0].name == name {
          assert IsFirst(fs, name, 0);
        } else if name in FirstOfEach(fs, known) {
          var i: nat :| IsFirst(fs[1..], name, i);
          assert IsFirst(fs, name, i + 1);
        }
      }
    }
  }

  /** For a new request with distinct header names, a printed request comes back exactly
      when its path and names hold no space and its values no CR. */
  lemma RecoveredIff(r: Request, was: Parts)
    requires DistinctNames(r.fields) && was.headers == map[]
    ensures Parse(Print(r), was) == Done(Meaning(r, map[])) <==> Clean(r)
  {
    hide Before, After, HasCrLf, ScanFields, PrintFields, Print, FirstOfEach, CleanHeaders;
    if Clean(r) {
      RoundTrip(r, was);
    } else if Parse(Print(r), was) == Done(Meaning(r, map[])) {
      NoneIsClean();
      ParseIsClean(Print(r), was);
      forall i | 0 <= i < |r.fields| ensures CleanField(r.fields[i]) {
        EveryFieldCounts(r.fields, map[], i);
        CleanAt(FirstOfEach(r.fields, map[]), r.fields[i].name);
      }
      assert false;
    }
  }

  lemma NoneIsClean()
    ensures CleanHeaders(map[])
  {
  }

  lemma CleanAt(h: Headers, name: string)
    requires CleanHeaders(h) && name in h
    ensures ' ' !in name && '\r' !in h[name]
  {
  }

  lemma ParseIsClean(s: string, was: Parts)
    requires CleanHeaders(was.headers) && Parse(s, was).Done?
    ensures ' ' !in Parse(s, was).parts.path && CleanHeaders(Parse(s, was).parts.headers)
  {
    hide Before, After, HasCrLf, ScanFields, CleanHeaders;
    var s2 := After(After(s, ' '), ' ');
    ScanIsClean(Drop(After(s2, '\r'), 1), was.headers);
  }

  // ----- The words of a request line -----

  /** A text's first word is w exactly when the text begins with w and a space. */
  lemma FirstWord(s: string, w: string, c: char)
    requires c in s && c !in w
    ensures Before(s, c) == w <==> w + [c] <= s
  {
    hide Before, After;
    var first := Before(s, c);
    assert s == first + [c] + After(s, c);
    if w + [c] <= s {
      var rest := s[|w| + 1..];
      assert s == w + [c] + rest;
      SplitAt(w, c, rest);
    }
  }

  /** A text that has been read says GET or POST exactly when it begins with that word. */
  lemma VerbsRead(s: string, was: Parts)
    requires Parse(s, was).Done?
    ensures Parse(s, was).parts.verb == Get <==> "GET " <= s
    ensures Parse(s, was).parts.verb == Post <==> "POST " <= s
  {
    hide Before, After, ScanFields, HasCrLf;
    FirstWord(s, "GET", ' ');
    FirstWord(s, "POST", ' ');
    assert "GET" + " " == "GET " && "POST" + " " == "POST ";
  }

  /** Whatever the three words of a request line: GET and POST, HTTP/1.0 and HTTP/1.1 are
      known, any other word is not, the middle one is the path, and the rest are headers. */
  lemma WordsRead(a: string, path: string, v: string, rest: string, was: Parts)
    requires ' ' !in a && ' ' !in path && '\r' !in v
    ensures var s := a + " " + path + " " + v + "\r\n" + rest;
      && !Parse(s, was).Incomplete?
      && var parts := Parse(s, was).parts;
      && (parts.verb == if a == "GET" then Get else if a == "POST" then Post else Invalid)
      && parts.path == path
      && (parts.version == if v == "HTTP/1.0" then Http10 else if v == "HTTP/1.1" then Http11 else Unknown)
      && parts.headers == ScanFields(rest, was.headers).headers
      && (Parse(s, was).Done? <==> ScanFields(rest, was.headers).Scanned?)
  {
    hide Before, After, HasCrLf, ScanFields;
    var s2 := v + ['\r'] + ("\n" + rest);
    var s1 := path + [' '] + s2;
    LineShape(a, path, v, rest);
    CrLfFound(a + " " + path + " " + v, rest);
    SplitAt(a, ' ', s1);
    SplitAt(path, ' ', s2);
    SplitAt(v, '\r', "\n" + rest);
    assert ("\n" + rest)[1..] == rest;
  }

  /** A text is complete as soon as some CR is followed by an LF. */
  lemma {:induction false} CrLfIff(s: string)
    ensures HasCrLf(s) <==> exists k :: 0 < k < |s| && s[k - 1] == '\r' && s[k] == '\n'
  {
    if |s| >= 2 {
      CrLfIff(s[1..]);
      if k :| 0 < k < |s| && s[k - 1] == '\r' && s[k] == '\n' {
        assert k > 1 ==> s[1..][k - 2] == '\r' && s[1..][k - 1] == '\n';
      }
      if k :| 0 < k < |s[1..]| && s[1..][k - 1] == '\r' && s[1..][k] == '\n' {
        assert s[k + 1 - 1] == '\r' && s[k + 1] == '\n';
      }
    }
  }

  /** Header lines are read until what is left has no space, or begins with one; the first
      is the end of the headers, the second an exception. */
  lemma {:induction false} ScanEnds(fs: seq<Field>, tail: string, known: Headers)
    requires forall i :: 0 <= i < |fs| ==> CleanField(fs[i])
    ensures ' ' !in tail ==> ScanFields(PrintLines(fs) + tail, known) == Scanned(FirstOfEach(fs, known))
    ensures " " <= tail ==> ScanFields(PrintLines(fs) + tail, known) == Cut(FirstOfEach(fs, known))
  {
    hide Emplace, PrintField;
    if fs == [] {
      assert PrintLines(fs) + tail == tail;
      hide *;
      StopsAtOnce(tail, known);
    } else {
      var rest := PrintLines(fs[1..]) + tail;
      assert PrintLines(fs) + tail == PrintField(fs[0]) + rest;
      ScanOne(fs[0], rest, known);
      ScanEnds(fs[1..], tail, Emplace(known, fs[0].name, fs[0].value));
    }
  }

  function PrintLines(fs: seq<Field>): string {
    if fs == [] then "" else PrintField(fs[0]) + PrintLines(fs[1..])
  }

  lemma StopsAtOnce(s: string, known: Headers)
    ensures ' ' !in s ==> ScanFields(s, known) == Scanned(FirstOfEach([], known))
    ensures " " <= s ==> ScanFields(s, known) == Cut(FirstOfEach([], known))
  {
    assert " " <= s ==> s[0] == ' ';
  }
}
