/** core/cookies/cookies.go: printing a cookie and finding an attribute in a cookie header. */
module Cookies {
  import opened Wrappers

  // ----- The library calls the scanner is built from, over ASCII text

  function Lower(c: char): char {
    if 'A' <= c <= 'Z' then c - 'A' + 'a' else c
  }

  function ToLower(s: string): (r: string)
    ensures |r| == |s|
    ensures forall i :: 0 <= i < |s| ==> r[i] == Lower(s[i])
  {
    seq(|s|, i requires 0 <= i < |s| => Lower(s[i]))
  }

  predicate IsSpace(c: char) {
    c == ' ' || c == '\t' || c == '\n' || c == '\r' || c as int == 11 || c as int == 12
  }

  function TrimLeft(s: string): string {
    if s != "" && IsSpace(s[0]) then TrimLeft(s[1..]) else s
  }

  function TrimRight(s: string): string {
    if s != "" && IsSpace(s[|s| - 1]) then TrimRight(s[..|s| - 1]) else s
  }

  function TrimSpace(s: string): string {
    TrimRight(TrimLeft(s))
  }

  /** The pieces between separators: always one more than there are separators. */
  function Split(s: string, sep: char): (parts: seq<string>)
    ensures parts != []
  {
    if s == "" then [""]
    else if s[0] == sep then [""] + Split(s[1..], sep)
    else
      var rest := Split(s[1..], sep);
      [[s[0]] + rest[0]] + rest[1..]
  }

  ghost predicate Contains(s: string, sub: string) {
    exists i :: 0 <= i <= |s| && sub <= s[i..]
  }

  method IsIn(s: string, sub: string) returns (found: bool)
    ensures found <==> Contains(s, sub)
  {
    for i := 0 to |s| + 1
      invariant forall j :: 0 <= j < i ==> !(sub <= s[j..])
    {
      if sub <= s[i..] {
        return true;
      }
    }
    return false;
  }

  /** The position of the first `c`, or -1. */
  function IndexOf(s: string, c: char): (i: int)
    ensures -1 <= i < |s|
    ensures i >= 0 ==> s[i] == c && c !in s[..i]
    ensures i == -1 <==> c !in s
  {
    if s == "" then -1
    else if s[0] == c then 0
    else
      var i := IndexOf(s[1..], c);
      if i == -1 then -1 else
      assert s[..i + 1] == [s[0]] + s[1..][..i];
      i + 1
  }

  function Digit(d: nat): char
    requires d < 10
  {
    '0' + d as char
  }

  function Decimal(n: nat): string {
    if n < 10 then [Digit(n)] else Decimal(n / 10) + [Digit(n % 10)]
  }

  function Itoa(n: int): string {
    if n < 0 then "-" + Decimal(-n) else Decimal(n)
  }

  // ----- Printing

  const SECOND := 1_000_000_000

  /** A duration in ns as whole seconds, truncated toward zero. */
  function Seconds(d: int): int {
    if d < 0 then -(-d / SECOND) else d / SECOND
  }

  function ValueAttributes(domain: string, expiry: int): string {
    " Domain=" + domain + "; Path=/; Max-Age=" + Itoa(Seconds(expiry)) + "; Secure; HttpOnly"
  }

  function GetValue(domain: string, key: string, val: string, expiry: int): Result<string, string> {
    if key == "" || val == "" then Err("missing cookie key or value")
    else Ok(key + "=" + val + ";" + ValueAttributes(domain, expiry))
  }

  const EPOCH := "Thu, 01 Jan 1970 00:00:00 GMT"

  function DeletedAttributes(domain: string): string {
    " Domain=" + domain + "; Path=/; Expires=" + EPOCH
  }

  function DeleteCookie(domain: string, key: string): Result<string, string> {
    if key == "" then Err("missing cookie key")
    else Ok(key + "=" + "deleted" + ";" + DeletedAttributes(domain))
  }

  // ----- Finding

  ghost predicate Matches(attribute: string, key: string) {
    Contains(ToLower(attribute), ToLower(key))
  }

  /** What the scanner answers once it has settled on an attribute. */
  function ValueOf(attribute: string): Option<string> {
    var i := IndexOf(attribute, '=');
    if i == -1 || attribute[i + 1..] == "" then None else Some(attribute[i + 1..])
  }

  /** The first attribute that contains the key decides. */
  ghost function Scan(parts: seq<string>, key: string): Option<string> {
    if parts == [] then None
    else if Matches(TrimSpace(parts[0]), key) then ValueOf(TrimSpace(parts[0]))
    else Scan(parts[1..], key)
  }

  ghost function Find(cookie: string, key: string): Option<string> {
    if cookie == "" then None else Scan(Split(cookie, ';'), key)
  }

  method FindAttribute(cookie: string, key: string) returns (val: string, ok: bool)
    ensures ok <==> Find(cookie, key).Some?
    ensures val == if ok then Find(cookie, key).value else ""
  {
    if cookie == "" {
      return "", false;
    }
    var attributes := Split(cookie, ';');
    for i := 0 to |attributes|
      invariant Scan(attributes, key) == Scan(attributes[i..], key)
    {
      var attribute := TrimSpace(attributes[i]);
      var found := IsIn(ToLower(attribute), ToLower(key));
      if found {
        var idx := IndexOf(attribute, '=');
        if idx == -1 {
          return "", false;
        }
        var attrVal := attribute[idx + 1..];
        if attrVal == "" {
          return "", false;
        }
        return attrVal, true;
      }
    }
    return "", false;
  }

  // ----- Round trips

  /** Text that survives splitting and trimming. */
  predicate Plain(s: string) {
    && ';' !in s
    && s != "" && !IsSpace(s[0]) && !IsSpace(s[|s| - 1])
  }

  datatype Pair = Pair(name: string, value: string) {
    function Text(): string {
      name + "=" + value
    }

    predicate WellFormed() {
      && Plain(Text()) && '=' !in name && value != ""
    }
  }

  /** A cookie header as section 4.2.1 of RFC 6265 writes it: pairs separated by "; ". */
  function Header(pairs: seq<Pair>): string {
    if pairs == [] then ""
    else if |pairs| == 1 then pairs[0].Text()
    else pairs[0].Text() + "; " + Header(pairs[1..])
  }

  lemma {:induction false} SplitHead(a: string, rest: string)
    requires ';' !in a
    ensures Split(a + ";" + rest, ';') == [a] + Split(rest, ';')
    ensures Split(a, ';') == [a]
  {
    if a == "" {
      assert a + ";" + rest == [';'] + rest;
    } else {
      SplitHead(a[1..], rest);
      assert (a + ";" + rest)[1..] == a[1..] + ";" + rest;
      assert [a[0]] + a[1..] == a;
    }
  }

  lemma TrimPlain(s: string)
    requires Plain(s)
    ensures TrimSpace(s) == s && TrimSpace(" " + s) == s
  {
    assert (" " + s)[1..] == s;
  }

  lemma NamedPairMatches(p: Pair)
    requires p.WellFormed()
    ensures Matches(p.Text(), p.name) && ValueOf(p.Text()) == Some(p.value)
  {
    var text := p.Text();
    assert ToLower(p.name) <= ToLower(text)[0..];
    var i := IndexOf(text, '=');
    assert text[|p.name|] == '=' && text[..|p.name|] == p.name;
    assert i <= |p.name|;
    assert text[i + 1..] == p.value;
  }

  /** The answer for a header of well-formed pairs: the value of the first pair whose text
      contains the key, ignoring case. */
  ghost function FirstMatch(pairs: seq<Pair>, key: string): Option<string> {
    if pairs == [] then None
    else if Matches(pairs[0].Text(), key) then Some(pairs[0].value)
    else FirstMatch(pairs[1..], key)
  }

  /** Header pieces after the first carry the separator's blank. */
  lemma {:induction false} ScanHeader(pairs: seq<Pair>, key: string, blank: string)
    requires pairs != [] && forall p :: p in pairs ==> p.WellFormed()
    requires blank == "" || blank == " "
    ensures Scan(Split(blank + Header(pairs), ';'), key) == FirstMatch(pairs, key)
  {
    hide Split, Scan, Matches, Plain;
    assert pairs[0].WellFormed();
    var piece := blank + pairs[0].Text();
    if |pairs| == 1 {
      ScanPiece(pairs[0], key, blank, "");
      assert blank + Header(pairs) == piece;
    } else {
      var rest := " " + Header(pairs[1..]);
      ScanPiece(pairs[0], key, blank, rest);
      assert blank + Header(pairs) == piece + ";" + rest;
      ScanHeader(pairs[1..], key, " ");
    }
  }

  lemma ScanPiece(p: Pair, key: string, blank: string, rest: string)
    requires p.WellFormed() && (blank == "" || blank == " ")
    ensures Scan(Split(blank + p.Text(), ';'), key) == if Matches(p.Text(), key) then Some(p.value) else None
    ensures Scan(Split(blank + p.Text() + ";" + rest, ';'), key)
         == if Matches(p.Text(), key) then Some(p.value) else Scan(Split(rest, ';'), key)
  {
    hide Matches, ValueOf, TrimSpace, Plain;
    var piece := blank + p.Text();
    assert TrimSpace(piece) == p.Text() by {
      TrimPlain(p.Text());
      assert blank == "" ==> piece == p.Text();
    }
    assert ';' !in piece by {
      PlainHasNoSemicolon(p.Text());
    }
    NamedPairMatches(p);
    SplitHead(piece, rest);
    assert ([piece] + Split(rest, ';'))[1..] == Split(rest, ';');
    assert Scan([piece][1..], key) == None;
  }

  lemma PlainHasNoSemicolon(s: string)
    requires Plain(s)
    ensures ';' !in s
  {
  }

  /** FindAttribute on any header of well-formed pairs. */
  lemma FindInHeader(pairs: seq<Pair>, key: string)
    requires forall p :: p in pairs ==> p.WellFormed()
    ensures Find(Header(pairs), key) == FirstMatch(pairs, key)
  {
    if pairs != [] {
      ScanHeader(pairs, key, "");
      assert "" + Header(pairs) == Header(pairs);
      assert pairs[0].WellFormed();
    }
  }

  lemma {:induction false} FirstMatchSkips(pairs: seq<Pair>, i: nat, key: string)
    requires i < |pairs| && forall j :: 0 <= j < i ==> !Matches(pairs[j].Text(), key)
    ensures FirstMatch(pairs, key) == FirstMatch(pairs[i..], key)
  {
    if i > 0 {
      FirstMatchSkips(pairs[1..], i - 1, key);
      assert pairs[1..][i - 1..] == pairs[i..];
    }
  }

  /** The value stored under a pair's own name comes back if and only if no earlier pair's text
      contains the name ignoring case, or the first that does holds the same value. */
  lemma FindNamed(pairs: seq<Pair>, i: nat)
    requires i < |pairs| && forall p :: p in pairs ==> p.WellFormed()
    ensures Find(Header(pairs), pairs[i].name) == Some(pairs[i].value)
      <==> forall j :: 0 <= j < i && Matches(pairs[j].Text(), pairs[i].name)
                    && (forall k :: 0 <= k < j ==> !Matches(pairs[k].Text(), pairs[i].name))
             ==> pairs[j].value == pairs[i].value
  {
    var key := pairs[i].name;
    FindInHeader(pairs, key);
    assert pairs[i].WellFormed();
    NamedPairMatches(pairs[i]);
    var j := FirstMatching(pairs, i, key);
    FirstMatchSkips(pairs, j, key);
  }

  lemma FirstMatching(pairs: seq<Pair>, i: nat, key: string) returns (j: nat)
    requires i < |pairs| && Matches(pairs[i].Text(), key)
    ensures j <= i && Matches(pairs[j].Text(), key)
    ensures forall k :: 0 <= k < j ==> !Matches(pairs[k].Text(), key)
  {
    j := 0;
    while !Matches(pairs[j].Text(), key)
      invariant j <= i && forall k :: 0 <= k < j ==> !Matches(pairs[k].Text(), key)
      decreases i - j
    {
      j := j + 1;
    }
  }

  lemma FindFirst(p: Pair, tail: string)
    requires p.WellFormed()
    ensures Find(p.Text() + ";" + tail, p.name) == Some(p.value)
  {
    SplitHead(p.Text(), tail);
    TrimPlain(p.Text());
    NamedPairMatches(p);
  }

  /** A printed cookie gives its value back, whatever the domain and lifetime. */
  lemma FindRecoversValue(domain: string, key: string, val: string, expiry: int)
    requires key != "" && Pair(key, val).WellFormed()
    ensures GetValue(domain, key, val, expiry).Ok?
    ensures Find(GetValue(domain, key, val, expiry).value, key) == Some(val)
  {
    hide ValueAttributes;
    FindFirst(Pair(key, val), ValueAttributes(domain, expiry));
  }

  /** A deleted cookie reads "deleted". */
  lemma FindRecoversDeleted(domain: string, key: string)
    requires key != "" && Pair(key, "deleted").WellFormed()
    ensures DeleteCookie(domain, key).Ok?
    ensures Find(DeleteCookie(domain, key).value, key) == Some("deleted")
  {
    hide DeletedAttributes;
    FindFirst(Pair(key, "deleted"), DeletedAttributes(domain));
  }

  /** Two pairs for which the earlier one hides the later: the looked-up name occurs in a value. */
  lemma EarlierPairCanHide()
    ensures
      var pairs := [Pair("a", "xb"), Pair("b", "second")];
      && (forall p :: p in pairs ==> p.WellFormed())
      && Find(Header(pairs), "b") == Some("xb")
  {
    var pairs := [Pair("a", "xb"), Pair("b", "second")];
    FindInHeader(pairs, "b");
    assert pairs[0].Text() == "a=xb";
    var low := ToLower("a=xb");
    assert low[3] == Lower("a=xb"[3]) && ToLower("b")[0] == Lower("b"[0]);
    assert ToLower("b") <= low[3..];
    assert Matches(pairs[0].Text(), "b");
  }
}
