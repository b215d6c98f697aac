/**
  What the printer of Cookies writes and what its scanner reads, stated without the printer's and the
  scanner's own functions.
  */
module CookieText {
  import opened Wrappers
  import opened Cookies
  import Base64

  // ----- The library calls

  /** Lower-casing changes the 26 capitals and nothing else. */
  lemma LowerIsAscii(c: char)
    ensures 'A' <= c <= 'Z' ==> c == Base64.UPPER[c as int - 65] && Lower(c) == Base64.LOWER[c as int - 65]
    ensures !('A' <= c <= 'Z') ==> Lower(c) == c
  {
    if 'A' <= c <= 'Z' {
      Base64.UpperAt(c as int - 65);
      Base64.LowerAt(c as int - 65);
    }
  }

  /** White space is tab, the line and page breaks, and blank. */
  lemma SpaceIsAscii(c: char)
    ensures IsSpace(c) <==> c as int in {9, 10, 11, 12, 13, 32}
  {
  }

  ghost predicate AllSpace(s: string) {
    forall i :: 0 <= i < |s| ==> IsSpace(s[i])
  }

  lemma {:induction false} TrimLeftTakesSpace(s: string) returns (i: nat)
    ensures i <= |s| && TrimLeft(s) == s[i..] && AllSpace(s[..i]) && (i < |s| ==> !IsSpace(s[i]))
  {
    if s != "" && IsSpace(s[0]) {
      i := TrimLeftTakesSpace(s[1..]);
      assert s[1..][i..] == s[i + 1..] && s[..i + 1] == [s[0]] + s[1..][..i];
      i := i + 1;
    } else {
      i := 0;
    }
  }

  lemma {:induction false} TrimRightTakesSpace(s: string) returns (j: nat)
    ensures j <= |s| && TrimRight(s) == s[..j] && AllSpace(s[j..]) && (j > 0 ==> !IsSpace(s[j - 1]))
  {
    if s != "" && IsSpace(s[|s| - 1]) {
      var front := s[..|s| - 1];
      j := TrimRightTakesSpace(front);
      assert front[..j] == s[..j] && s[j..] == front[j..] + [s[|s| - 1]];
    } else {
      j := |s|;
      assert s[..j] == s;
    }
  }

  /** Trimming takes the white space off both ends, and all of it. */
  lemma TrimTakesOuterSpace(s: string) returns (i: nat, j: nat)
    ensures i <= j <= |s| && TrimSpace(s) == s[i..j] && AllSpace(s[..i]) && AllSpace(s[j..])
    ensures i < j ==> !IsSpace(s[i]) && !IsSpace(s[j - 1])
  {
    i := TrimLeftTakesSpace(s);
    var k := TrimRightTakesSpace(s[i..]);
    j := i + k;
    assert s[i..][..k] == s[i..j] && s[i..][k..] == s[j..];
  }

  function Join(parts: seq<string>, sep: char): string {
    if parts == [] then "" else if |parts| == 1 then parts[0] else parts[0] + [sep] + Join(parts[1..], sep)
  }

  /** Splitting gives the pieces that, with the separator between them, make up the text, and none of
      which holds a separator. */
  lemma {:induction false} SplitGivesThePieces(s: string, sep: char)
    ensures Join(Split(s, sep), sep) == s && forall p :: p in Split(s, sep) ==> sep !in p
  {
    if s != "" {
      var rest := Split(s[1..], sep);
      SplitGivesThePieces(s[1..], sep);
      assert s == [s[0]] + s[1..];
      if s[0] == sep {
        assert ([""] + rest)[1..] == rest;
      } else {
        assert ([[s[0]] + rest[0]] + rest[1..])[1..] == rest[1..];
        assert rest[0] in rest && forall p :: p in rest[1..] ==> p in rest;
        JoinHead([s[0]], rest, sep);
      }
    }
  }

  lemma JoinHead(x: string, parts: seq<string>, sep: char)
    requires parts != []
    ensures Join([x + parts[0]] + parts[1..], sep) == x + Join(parts, sep)
  {
    assert ([x + parts[0]] + parts[1..])[1..] == parts[1..];
    if |parts| > 1 {
      assert (x + parts[0]) + [sep] + Join(parts[1..], sep) == x + (parts[0] + [sep] + Join(parts[1..], sep));
    }
  }

  // ----- Reading

  /** The first piece of the header that contains the key, ignoring case. */
  ghost predicate FirstPiece(parts: seq<string>, i: int, key: string) {
    && 0 <= i < |parts| && Matches(TrimSpace(parts[i]), key)
    && forall j :: 0 <= j < i ==> !Matches(TrimSpace(parts[j]), key)
  }

  ghost predicate Reads(piece: string, name: string, val: string) {
    TrimSpace(piece) == name + "=" + val && '=' !in name && val != ""
  }

  lemma ValueIsRest(text: string, val: string)
    ensures ValueOf(text) == Some(val) <==> exists name :: text == name + "=" + val && '=' !in name && val != ""
  {
    var i := IndexOf(text, '=');
    if i != -1 {
      assert text == text[..i] + "=" + text[i + 1..];
    }
    forall name | text == name + "=" + val && '=' !in name ensures i == |name| && text[i + 1..] == val {
      assert text[|name|] == '=' && text[..|name|] == name;
      assert forall k :: 0 <= k < |name| ==> text[k] == name[k] && name[k] in name;
    }
  }

  lemma {:induction false} ScanIsFirst(parts: seq<string>, key: string, val: string)
    ensures Scan(parts, key) == Some(val)
      <==> exists i :: FirstPiece(parts, i, key) && ValueOf(TrimSpace(parts[i])) == Some(val)
  {
    if parts != [] {
      var rest := parts[1..];
      if Matches(TrimSpace(parts[0]), key) {
        assert FirstPiece(parts, 0, key);
        assert forall i :: FirstPiece(parts, i, key) ==> i == 0;
      } else {
        ScanIsFirst(rest, key, val);
        forall i: int ensures FirstPiece(rest, i, key) <==> FirstPiece(parts, i + 1, key) {
          assert 0 <= i < |rest| ==> rest[i] == parts[i + 1];
          assert forall j :: 0 <= j < |rest| ==> rest[j] == parts[j + 1];
          if FirstPiece(rest, i, key) {
            forall j | 0 <= j < i + 1 ensures !Matches(TrimSpace(parts[j]), key) {
              assert j > 0 ==> parts[j] == rest[j - 1];
            }
          }
          if FirstPiece(parts, i + 1, key) {
            assert i + 1 != 0;
          }
        }
        if i :| FirstPiece(parts, i, key) && ValueOf(TrimSpace(parts[i])) == Some(val) {
          assert FirstPiece(rest, i - 1, key);
        }
        if i :| FirstPiece(rest, i, key) && ValueOf(TrimSpace(rest[i])) == Some(val) {
          assert FirstPiece(parts, i + 1, key);
        }
      }
    }
  }

  /** Trimmed, the piece is name=val for some name without '=', and `val` is not empty. */
  ghost predicate Holds(piece: string, val: string) {
    exists name :: Reads(piece, name, val)
  }

  lemma PieceHolds(piece: string, val: string)
    ensures ValueOf(TrimSpace(piece)) == Some(val) <==> Holds(piece, val)
  {
    hide TrimSpace;
    var text := TrimSpace(piece);
    ValueIsRest(text, val);
    hide ValueOf;
    if name :| text == name + "=" + val && '=' !in name && val != "" {
      assert Reads(piece, name, val);
    }
  }

  /** The first piece that contains the key ignoring case holds the value. */
  ghost predicate FirstHolds(parts: seq<string>, key: string, val: string) {
    exists i :: FirstPiece(parts, i, key) && Holds(parts[i], val)
  }

  lemma ScanFindsFirst(parts: seq<string>, key: string, val: string)
    ensures Scan(parts, key) == Some(val) <==> FirstHolds(parts, key, val)
  {
    ScanIsFirst(parts, key, val);
    forall i | 0 <= i < |parts| ensures ValueOf(TrimSpace(parts[i])) == Some(val) <==> Holds(parts[i], val) {
      PieceHolds(parts[i], val);
    }
    hide Matches, TrimSpace, ValueOf, Scan, Holds;
  }

  /** FindAttribute finds `val` exactly if it is held by the first piece that contains the key ignoring
      case. */
  lemma FindIff(cookie: string, key: string, val: string)
    ensures Find(cookie, key) == Some(val) <==> FirstHolds(Split(cookie, ';'), key, val)
  {
    hide Holds, Scan;
    ScanFindsFirst(Split(cookie, ';'), key, val);
    EmptyHolds(val);
  }

  lemma EmptyHolds(val: string)
    ensures Split("", ';') == [""] && !Holds("", val)
  {
    PieceHolds("", val);
  }

  // ----- Printing

  /** Seconds are truncated toward zero. */
  lemma SecondsTruncate(d: int)
    ensures d >= 0 ==> Seconds(d) * 1_000_000_000 <= d < (Seconds(d) + 1) * 1_000_000_000
    ensures d < 0 ==> Seconds(d) * 1_000_000_000 >= d > (Seconds(d) - 1) * 1_000_000_000
  {
  }

  /** The number that a text of digits stands for. */
  function Number(s: string): int {
    if s == "" then 0 else Number(s[..|s| - 1]) * 10 + (s[|s| - 1] as int - '0' as int)
  }

  lemma {:induction false} DecimalReadsBack(n: nat)
    ensures Decimal(n) != "" && Number(Decimal(n)) == n
    ensures forall i :: 0 <= i < |Decimal(n)| ==> '0' <= Decimal(n)[i] <= '9'
    ensures n > 0 ==> Decimal(n)[0] != '0'
  {
    if n < 10 {
      assert [Digit(n)][..0] == "";
    } else {
      DecimalReadsBack(n / 10);
      assert Decimal(n)[..|Decimal(n)| - 1] == Decimal(n / 10);
    }
  }

  /** A number is printed as its digits, without leading zeros, after a minus sign if it is negative. */
  lemma ItoaReadsBack(n: int)
    ensures n >= 0 ==> Number(Itoa(n)) == n
    ensures n < 0 ==> Itoa(n)[0] == '-' && Number(Itoa(n)[1..]) == -n
    ensures ';' !in Itoa(n)
  {
    var abs := if n < 0 then -n else n;
    DecimalReadsBack(abs);
    assert n < 0 ==> Itoa(n)[1..] == Decimal(abs);
  }

  lemma SplitOff(a: string, rest: string, parts: seq<string>)
    requires ';' !in a && Split(rest, ';') == parts
    ensures Split(a + ";" + rest, ';') == [a] + parts
  {
    SplitHead(a, rest);
  }

  /** A printed cookie is key=value and five attributes: the domain, the whole path, the lifetime in
      seconds, and the two flags.  It fails exactly without a key or a value. */
  lemma CookieHasItsAttributes(domain: string, key: string, val: string, expiry: int)
    requires ';' !in domain && ';' !in key && ';' !in val
    ensures GetValue(domain, key, val, expiry).Err? <==> key == "" || val == ""
    ensures key != "" && val != "" ==>
      Split(GetValue(domain, key, val, expiry).value, ';')
        == [key + "=" + val, " Domain=" + domain, " Path=/", " Max-Age=" + Itoa(Seconds(expiry)), " Secure", " HttpOnly"]
  {
    ItoaReadsBack(Seconds(expiry));
    var age := " Max-Age=" + Itoa(Seconds(expiry));
    hide Split, Itoa, Seconds;
    SplitHead(" HttpOnly", "");
    SplitOff(" Secure", " HttpOnly", [" HttpOnly"]);
    SplitOff(age, " Secure" + ";" + " HttpOnly", [" Secure", " HttpOnly"]);
    var tail := age + ";" + (" Secure" + ";" + " HttpOnly");
    SplitOff(" Path=/", tail, [age, " Secure", " HttpOnly"]);
    SplitOff(" Domain=" + domain, " Path=/" + ";" + tail, [" Path=/", age, " Secure", " HttpOnly"]);
    SplitOff(key + "=" + val, " Domain=" + domain + ";" + (" Path=/" + ";" + tail),
             [" Domain=" + domain, " Path=/", age, " Secure", " HttpOnly"]);
    AttributesAre(domain, expiry, age, tail);
  }

  lemma AttributesAre(domain: string, expiry: int, age: string, tail: string)
    requires age == " Max-Age=" + Itoa(Seconds(expiry)) && tail == age + ";" + (" Secure" + ";" + " HttpOnly")
    ensures ValueAttributes(domain, expiry) == " Domain=" + domain + ";" + (" Path=/" + ";" + tail)
  {
    hide Itoa, Seconds;
    assert "; Path=/; Max-Age=" == ";" + (" Path=/" + (";" + " Max-Age="));
    assert "; Secure; HttpOnly" == ";" + (" Secure" + ";" + " HttpOnly");
  }

  /** A deleted cookie is key=deleted with the domain, the whole path and an expiry in 1970. */
  lemma DeletedCookieHasItsAttributes(domain: string, key: string)
    requires ';' !in domain && ';' !in key
    ensures DeleteCookie(domain, key).Err? <==> key == ""
    ensures key != "" ==>
      Split(DeleteCookie(domain, key).value, ';')
        == [key + "=deleted", " Domain=" + domain, " Path=/", " Expires=" + "Thu, 01 Jan 1970 00:00:00 GMT"]
  {
    hide Split;
    var expires := " Expires=" + EPOCH;
    EpochHasNoSeparator();
    SplitHead(expires, "");
    SplitOff(" Path=/", expires, [expires]);
    SplitOff(" Domain=" + domain, " Path=/" + ";" + expires, [" Path=/", expires]);
    SplitOff(key + "=deleted", " Domain=" + domain + ";" + (" Path=/" + ";" + expires),
             [" Domain=" + domain, " Path=/", expires]);
    assert "; Path=/; Expires=" == ";" + (" Path=/" + (";" + " Expires="));
    DeletedAre(domain, expires);
    assert key + "=" + "deleted" == key + "=deleted";
  }

  lemma EpochHasNoSeparator()
    ensures ';' !in " Expires=" + EPOCH
  {
  }

  lemma DeletedAre(domain: string, expires: string)
    requires expires == " Expires=" + EPOCH
    ensures DeletedAttributes(domain) == " Domain=" + domain + ";" + (" Path=/" + ";" + expires)
  {
    DeletedWith(domain, EPOCH);
  }

  lemma DeletedWith(domain: string, epoch: string)
    ensures " Domain=" + domain + "; Path=/; Expires=" + epoch
         == " Domain=" + domain + ";" + (" Path=/" + ";" + (" Expires=" + epoch))
  {
    assert "; Path=/; Expires=" == ";" + (" Path=/" + (";" + " Expires="));
  }
}
