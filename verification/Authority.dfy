/** Request authorities: the access-log classifier of xds/server.go and the request form's
    parser of web/web.go, which must agree on what was denied. */
module Authority {
  import opened Text
  import opened Names
  import opened Xds
  import opened Enforcement

  function LowerChar(c: char): char {
    if 'A' <= c <= 'Z' then ((c as int) + 32) as char else c
  }

  function ToLower(s: string): (r: string)
    ensures |r| == |s| && forall i :: 0 <= i < |s| ==> r[i] == LowerChar(s[i])
  {
    seq(|s|, i requires 0 <= i < |s| => LowerChar(s[i]))
  }

  predicate IsSpace(c: char) {
    c == ' ' || '\t' <= c <= '\r' || c == '\U{85}' || c == '\U{A0}'
  }

  function TrimSpace(s: string): string {
    if s != [] && IsSpace(s[0]) then TrimSpace(s[1..])
    else if s != [] && IsSpace(s[|s| - 1]) then TrimSpace(s[..|s| - 1])
    else s
  }

  /** The last position of `c`, or -1. */
  function LastIndex(s: string, c: char): (i: int)
    ensures -1 <= i < |s|
    ensures i >= 0 ==> s[i] == c
    ensures forall j :: i < j < |s| ==> s[j] != c
  {
    if s == [] then -1 else if s[|s| - 1] == c then |s| - 1 else LastIndex(s[..|s| - 1], c)
  }

  function FirstIndex(s: string, c: char): (i: int)
    ensures -1 <= i < |s|
    ensures i >= 0 ==> s[i] == c && forall j :: 0 <= j < i ==> s[j] != c
    ensures i == -1 ==> c !in s
  {
    if s == [] then -1 else if s[0] == c then 0 else
      assert s == [s[0]] + s[1..];
      var i := FirstIndex(s[1..], c);
      if i == -1 then -1 else i + 1
  }

  /** net.SplitHostPort; None stands for any of its errors. */
  function SplitHostPort(s: string): Option<(string, string)> {
    var i := LastIndex(s, ':');
    if i < 0 then None
    else if s[0] == '[' then
      var end := FirstIndex(s, ']');
      if end < 0 || end + 1 != i then None
      else if '[' in s[1..] || ']' in s[end + 1..] then None
      else Some((s[1..end], s[i + 1..]))
    else if ':' in s[..i] || '[' in s || ']' in s then None
    else Some((s[..i], s[i + 1..]))
  }

  const MAX_INT := 9223372036854775807

  function Value(s: string): int {
    if s == [] then 0 else 10 * Value(s[..|s| - 1]) + (s[|s| - 1] as int - '0' as int)
  }

  predicate AllDigits(s: string) {
    s != [] && forall c :: c in s ==> '0' <= c <= '9'
  }

  /** strconv.Atoi on a 64-bit platform: the value, and whether there was no error. A syntax
      error gives 0, a range error the nearest representable number. */
  function Atoi(s: string): (int, bool) {
    var neg := s != [] && s[0] == '-';
    var digits := if s != [] && (s[0] == '-' || s[0] == '+') then s[1..] else s;
    if !AllDigits(digits) then (0, false)
    else if neg && Value(digits) > MAX_INT + 1 then (-MAX_INT - 1, false)
    else if !neg && Value(digits) > MAX_INT then (MAX_INT, false)
    else (if neg then -Value(digits) else Value(digits), true)
  }

  datatype Denial = Denial(ip: string, host: string, port: int)

  /** xds/server.go denial: classify one access-log entry. */
  function Classify(code: int, ip: string, authority: string): Option<Denial> {
    if code != 403 then None else
      var lower := ToLower(authority);
      var split := SplitHostPort(lower);
      var (host, port) :=
        if split.Some? && Atoi(split.value.1).1 then (split.value.0, Atoi(split.value.1).0) else (lower, 80);
      if ip == "" || !ValidName(host) then None else Some(Denial(ip, host, port))
  }

  /** web/web.go hostPort: split the authority carried by the request link. */
  function HostPort(authority: string): (string, int) {
    var a := ToLower(TrimSpace(authority));
    var split := SplitHostPort(a);
    if split.Some? then (split.value.0, Atoi(split.value.1).0) else (a, 80)
  }

  // ---- They agree ----------------------------------------------------------

  lemma {:induction false} TrimNothing(s: string)
    requires s == [] || (!IsSpace(s[0]) && !IsSpace(s[|s| - 1]))
    ensures TrimSpace(s) == s
  {
  }

  lemma NameChars(host: string)
    requires ValidName(host)
    ensures |host| >= 2 && ':' !in host && '[' !in host && ']' !in host
    ensures !IsSpace(host[0]) && !IsSpace(host[|host| - 1])
  {
    ValidNameShape(host);
  }

  lemma SplitShape(s: string)
    requires SplitHostPort(s).Some?
    ensures ':' in s && s != []
    ensures var (h, p) := SplitHostPort(s).value;
            && (h != [] ==> s[0] == '[' || s[0] == h[0])
            && (p != [] ==> s[|s| - 1] == p[|p| - 1])
  {
    assert s[LastIndex(s, ':')] in s;
  }

  lemma SpaceSurvivesLower(s: string)
    requires s != []
    ensures IsSpace(s[0]) <==> IsSpace(ToLower(s)[0])
    ensures IsSpace(s[|s| - 1]) <==> IsSpace(ToLower(s)[|s| - 1])
  {
  }

  /** Neither end of a classified authority is white space, so trimming it changes nothing. */
  lemma DenialHasNoEdgeSpace(ip: string, authority: string)
    requires Classify(403, ip, authority).Some?
    ensures authority != [] && !IsSpace(authority[0]) && !IsSpace(authority[|authority| - 1])
  {
    var lower := ToLower(authority);
    var host := Classify(403, ip, authority).value.host;
    NameChars(host);
    var split := SplitHostPort(lower);
    if split.Some? && Atoi(split.value.1).1 {
      PortEndsInDigit(split.value.1);
      SplitShape(lower);
      assert host == split.value.0;
    } else {
      assert lower == host;
    }
    SpaceSurvivesLower(authority);
  }

  lemma PortEndsInDigit(p: string)
    requires Atoi(p).1
    ensures p != [] && '0' <= p[|p| - 1] <= '9'
  {
    var digits := if p[0] == '-' || p[0] == '+' then p[1..] else p;
    assert digits[|digits| - 1] in digits;
    assert digits[|digits| - 1] == p[|p| - 1];
  }

  /** Whatever is recorded as denied, the link in the 403 body asks for the same thing. */
  lemma ClassifierAndFormAgree(code: int, ip: string, authority: string)
    requires Classify(code, ip, authority).Some?
    ensures HostPort(authority) == (Classify(code, ip, authority).value.host, Classify(code, ip, authority).value.port)
  {
    DenialHasNoEdgeSpace(ip, authority);
    TrimNothing(authority);
    var lower := ToLower(authority);
    var split := SplitHostPort(lower);
    var d := Classify(code, ip, authority).value;
    if split.Some? {
      SplitShape(lower);
      NameChars(d.host);
      assert Atoi(split.value.1).1;
    }
  }

  // ---- Canonical authorities -----------------------------------------------

  function PortOf(t: Tail): int {
    if t.Port443? then 443 else 80
  }

  lemma PortTextsRead()
    ensures Atoi("80") == (80, true) && Atoi("443") == (443, true)
  {
    assert "80"[..1] == "8" && "8"[..0] == "" && "443"[..2] == "44" && "44"[..1] == "4" && "4"[..0] == "";
    assert Value("8") == 8 && Value("80") == 80 && Value("4") == 4 && Value("44") == 44 && Value("443") == 443;
  }

  lemma LowerOfName(host: string, t: Tail)
    requires ValidName(host)
    ensures ToLower(Domain(host, t)) == Domain(host, t)
  {
    ValidNameShape(host);
    var a := Domain(host, t);
    forall i | 0 <= i < |a| ensures LowerChar(a[i]) == a[i] {
      if i < |host| { assert a[i] == host[i]; } else { assert a[i] == TailText(t)[i - |host|]; }
    }
  }

  lemma SplitAtOnlyColon(host: string, port: string)
    requires host != [] && ':' !in host && '[' !in host && ']' !in host
    requires ':' !in port && '[' !in port && ']' !in port
    ensures SplitHostPort(host + ":" + port) == Some((host, port))
  {
    var a := host + ":" + port;
    assert a[|host|] == ':' && a[0] == host[0];
    assert forall j :: |host| < j < |a| ==> a[j] == port[j - |host| - 1];
    assert LastIndex(a, ':') == |host|;
    assert a[..|host|] == host && a[|host| + 1..] == port;
    assert forall c :: c in a ==> c in host || c == ':' || c in port;
  }

  lemma SplitOfName(host: string, t: Tail)
    requires ValidName(host)
    ensures t.Bare? ==> SplitHostPort(Domain(host, t)) == None
    ensures t.Port80? ==> SplitHostPort(Domain(host, t)) == Some((host, "80"))
    ensures t.Port443? ==> SplitHostPort(Domain(host, t)) == Some((host, "443"))
  {
    NameChars(host);
    match t
    case Bare => assert Domain(host, t) == host;
    case Port80 =>
      SplitAtOnlyColon(host, "80");
      assert Domain(host, t) == host + ":" + "80";
    case Port443 =>
      SplitAtOnlyColon(host, "443");
      assert Domain(host, t) == host + ":" + "443";
  }

  /** A refused request for a name, name:80 or name:443 is recorded under that name and port,
      and both parsers read it so. */
  lemma CanonicalAuthority(host: string, t: Tail, ip: string)
    requires ValidName(host) && ip != ""
    ensures Classify(403, ip, Domain(host, t)) == Some(Denial(ip, host, PortOf(t)))
    ensures HostPort(Domain(host, t)) == (host, PortOf(t))
  {
    LowerOfName(host, t);
    SplitOfName(host, t);
    PortTextsRead();
    assert Domain(host, Bare) == host;
    ClassifierAndFormAgree(403, ip, Domain(host, t));
  }

  // ---- Any case, any port --------------------------------------------------

  /** `name` spells `lower`, some of whose letters may be capitals. */
  predicate CaseOf(name: string, lower: string) {
    && |name| == |lower|
    && forall i :: 0 <= i < |name| ==>
         name[i] == lower[i] || ('a' <= lower[i] <= 'z' && name[i] as int == lower[i] as int - 32)
  }

  lemma LowerOfCase(name: string, lower: string, rest: string)
    requires ValidName(lower) && CaseOf(name, lower) && forall c :: c in rest ==> c == ':' || '0' <= c <= '9'
    ensures ToLower(name + rest) == lower + rest
  {
    ValidNameShape(lower);
    var a := name + rest;
    forall i | 0 <= i < |a| ensures LowerChar(a[i]) == (lower + rest)[i] {
      if i < |name| {
        assert a[i] == name[i] && lower[i] in lower;
      } else {
        assert a[i] == rest[i - |name|] && a[i] in rest;
      }
    }
  }

  lemma {:induction false} DigitsRead(n: nat)
    ensures AllDigits(Digits(n)) && Value(Digits(n)) == n
  {
    if n < 10 {
      assert Digits(n)[..0] == "";
    } else {
      DigitsRead(n / 10);
      var d, c := Digits(n / 10), '0' + (n % 10) as char;
      assert Digits(n)[..|d|] == d && Digits(n) == d + [c];
    }
  }

  lemma {:induction false} AtoiReads(p: string)
    requires AllDigits(p) && Value(p) <= 9223372036854775807
    ensures Atoi(p) == (Value(p), true)
  {
    assert p[0] in p;
  }

  lemma NoColonNoSplit(s: string)
    requires ':' !in s
    ensures SplitHostPort(s) == None
  {
  }

  lemma AnyCaseNoPort(name: string, lower: string, ip: string)
    requires ValidName(lower) && CaseOf(name, lower) && ip != ""
    ensures Classify(403, ip, name) == Some(Denial(ip, lower, 80))
  {
    NameChars(lower);
    LowerOfCase(name, lower, "");
    assert name + "" == name && lower + "" == lower;
    NoColonNoSplit(lower);
  }

  lemma SplitOfCase(name: string, lower: string, p: string)
    requires ValidName(lower) && CaseOf(name, lower) && AllDigits(p)
    ensures SplitHostPort(ToLower(name + ":" + p)) == Some((lower, p))
  {
    NameChars(lower);
    LowerOfCase(name, lower, ":" + p);
    assert name + ":" + p == name + (":" + p) && lower + ":" + p == lower + (":" + p);
    SplitAtOnlyColon(lower, p);
  }

  /** The same for any text of digits, leading zeros included. */
  lemma {:induction false} AnyCaseDigits(name: string, lower: string, p: string, ip: string)
    requires ValidName(lower) && CaseOf(name, lower) && AllDigits(p) && Value(p) <= 9223372036854775807 && ip != ""
    ensures Classify(403, ip, name + ":" + p) == Some(Denial(ip, lower, Value(p)))
  {
    SplitOfCase(name, lower, p);
    AtoiReads(p);
  }

  /** A refused request for a valid name, in whatever case and on whatever port, is recorded under
      the name in lower case and that port, 80 when there is none; and the form reads it so. */
  lemma AnyCaseAnyPort(name: string, lower: string, n: nat, ip: string)
    requires IsPattern(lower) && CaseOf(name, lower) && n <= 9223372036854775807 && ip != ""
    ensures Classify(403, ip, name) == Some(Denial(ip, lower, 80)) && HostPort(name) == (lower, 80)
    ensures Classify(403, ip, name + ":" + Decimal(n)) == Some(Denial(ip, lower, n))
    ensures HostPort(name + ":" + Decimal(n)) == (lower, n)
  {
    ValidNameIsPattern(lower);
    DigitsRead(n);
    AnyCaseNoPort(name, lower, ip);
    AnyCaseDigits(name, lower, Decimal(n), ip);
    ClassifierAndFormAgree(403, ip, name);
    ClassifierAndFormAgree(403, ip, name + ":" + Decimal(n));
  }

  /** Nothing else is recorded: only a 403, from a known address, for a valid name. */
  lemma OnlyDenialsAreRecorded(code: int, ip: string, authority: string)
    requires Classify(code, ip, authority).Some?
    ensures var d := Classify(code, ip, authority).value;
            code == 403 && d.ip == ip && ip != "" && IsPattern(d.host)
  {
    ValidNameIsPattern(Classify(code, ip, authority).value.host);
  }
}
