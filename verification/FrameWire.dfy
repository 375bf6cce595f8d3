/**
 Frame attributes on the wire: decimal fields, the reserved attribute names and
 the ASAP-FRAME-V1 checksum preimage.
 */
module FrameWire {
  import opened Bits
  import opened Common
  import opened Wire
  import opened Order

  type Attributes = map<string, string>

  // ---------------------------------------------------------------------
  // Decimal fields
  // ---------------------------------------------------------------------

  function Digit(d: nat): (c: char)
    requires d < 10
  {
    (('0' as int) + d) as char
  }

  function Decimal(n: nat): (s: string)
    ensures s != ""
  {
    if n < 10 then [Digit(n)] else Decimal(n / 10) + [Digit(n % 10)]
  }

  function ParseDigits(s: string): (r: Option<nat>)
  {
    if s == "" then Some(0)
    else
      var n := |s| - 1;
      if !('0' <= s[n] <= '9') then None
      else
        var hi :- ParseDigits(s[..n]);
        Some(10 * hi + (s[n] as int - '0' as int))
  }

  /** `strconv.ParseUint` in base 10 to 64 bits. */
  function ParseUint(s: string): (r: Option<nat>)
  {
    if s == "" then None
    else
      var n :- ParseDigits(s);
      if n < TWO64 then Some(n) else None
  }

  /** Exactly the digit strings that denote a 64-bit number parse. */
  lemma {:induction false} DigitsIff(s: string)
    ensures ParseDigits(s).Some? <==> forall i :: 0 <= i < |s| ==> '0' <= s[i] <= '9'
  {
    if s != "" {
      var n := |s| - 1;
      DigitsIff(s[..n]);
      assert forall i :: 0 <= i < n ==> s[..n][i] == s[i];
    }
  }

  lemma ParseUintIff(s: string)
    ensures ParseUint(s).Some? <==>
              && s != "" && (forall i :: 0 <= i < |s| ==> '0' <= s[i] <= '9')
              && (ParseDigits(s).Some? ==> ParseDigits(s).value < 0x1_0000_0000_0000_0000)
  {
    DigitsIff(s);
  }

  lemma {:induction false} DecimalDigits(n: nat)
    ensures ParseDigits(Decimal(n)) == Some(n)
  {
    var s := Decimal(n);
    if n < 10 {
      assert s[..0] == "";
    } else {
      DecimalDigits(n / 10);
      assert s[..|s| - 1] == Decimal(n / 10);
    }
  }

  lemma DecimalRoundTrip(n: nat)
    requires n < TWO64
    ensures ParseUint(Decimal(n)) == Some(n)
  {
    DecimalDigits(n);
  }

  // ---------------------------------------------------------------------
  // The checksum preimage
  // ---------------------------------------------------------------------

  const CHECKSUM: string := "asap.frame.payload_checksum"
  const DOMAIN: string := "ASAP-FRAME-V1"

  function Text(bs: Bytes): (s: string)
    ensures |s| == |bs|
  {
    seq(|bs|, i requires 0 <= i < |bs| => bs[i] as char)
  }

  /** A length as four big-endian bytes. */
  function Size(n: nat): (s: string)
    ensures |s| == 4
  {
    Text(BigEndian(n % 0x1_0000_0000, 4))
  }

  lemma SizeInjective(m: nat, n: nat)
    requires m < 0x1_0000_0000 && n < 0x1_0000_0000 && Size(m) == Size(n)
    ensures m == n
  {
    hide BigEndian;
    var a, b := BigEndian(m, 4), BigEndian(n, 4);
    assert Text(a) == Text(b);
    forall i | 0 <= i < 4
      ensures a[i] == b[i]
    {
      assert Text(a)[i] == Text(b)[i];
    }
    Pow2Words();
    BigEndianInjective(m, n, 4);
  }

  function Entry(k: string, v: string): (s: string)
  {
    Size(|k|) + (k + (Size(|v|) + v))
  }

  function Header(ks: seq<string>, a: Attributes): (s: string)
    requires forall k :: k in ks ==> k in a
  {
    if ks == [] then "" else Entry(ks[0], a[ks[0]]) + Header(ks[1..], a)
  }

  predicate SortedKeys(ks: seq<string>)
  {
    forall i, j :: 0 <= i < j < |ks| ==> StrLess(ks[i], ks[j])
  }

  /** `ks` lists the attributes the checksum covers, in order. */
  ghost predicate Covers(ks: seq<string>, a: Attributes)
  {
    SortedKeys(ks) && forall k :: k in ks <==> k in a && k != CHECKSUM
  }

  function Preimage(ks: seq<string>, a: Attributes, payload: string): (s: string)
    requires forall k :: k in ks ==> k in a
  {
    DOMAIN + (Size(|Header(ks, a)|) + (Header(ks, a) + payload))
  }

  predicate Fits(a: Attributes)
  {
    forall k :: k in a ==> |k| < 0x1_0000_0000 && |a[k]| < 0x1_0000_0000
  }

  lemma SplitEqual(a: string, b: string, c: string, d: string)
    requires |a| == |c| && a + b == c + d
    ensures a == c && b == d
  {
    assert a == (a + b)[..|a|] && c == (c + d)[..|c|];
    assert b == (a + b)[|a|..] && d == (c + d)[|c|..];
  }

  /** A length-prefixed field can be read off the front in one way only. */
  lemma FieldEqual(k: string, rest: string, l: string, rest': string)
    requires |k| < 0x1_0000_0000 && |l| < 0x1_0000_0000
    requires Size(|k|) + (k + rest) == Size(|l|) + (l + rest')
    ensures k == l && rest == rest'
  {
    hide Size;
    SplitEqual(Size(|k|), k + rest, Size(|l|), l + rest');
    SizeInjective(|k|, |l|);
    SplitEqual(k, rest, l, rest');
  }

  lemma EntryEqual(k: string, v: string, rest: string, l: string, w: string, rest': string)
    requires |k| < 0x1_0000_0000 && |l| < 0x1_0000_0000 && |v| < 0x1_0000_0000 && |w| < 0x1_0000_0000
    requires Entry(k, v) + rest == Entry(l, w) + rest'
    ensures k == l && v == w && rest == rest'
  {
    hide Size;
    EntryAssoc(k, v, rest);
    EntryAssoc(l, w, rest');
    FieldEqual(k, Size(|v|) + (v + rest), l, Size(|w|) + (w + rest'));
    FieldEqual(v, rest, w, rest');
  }

  lemma EntryAssoc(k: string, v: string, rest: string)
    ensures Entry(k, v) + rest == Size(|k|) + (k + (Size(|v|) + (v + rest)))
  {
    hide Size;
    Assoc(Size(|k|), k + (Size(|v|) + v), rest);
    Assoc(k, Size(|v|) + v, rest);
    Assoc(Size(|v|), v, rest);
  }

  lemma {:induction false} HeaderEqual(ks: seq<string>, a: Attributes, ls: seq<string>, b: Attributes)
    requires (forall k :: k in ks ==> k in a) && (forall k :: k in ls ==> k in b)
    requires Fits(a) && Fits(b) && Header(ks, a) == Header(ls, b)
    ensures ks == ls && forall k :: k in ks ==> a[k] == b[k]
  {
    hide Entry;
    if ks != [] && ls != [] {
      EntryEqual(ks[0], a[ks[0]], Header(ks[1..], a), ls[0], b[ls[0]], Header(ls[1..], b));
      HeaderEqual(ks[1..], a, ls[1..], b);
      assert ks == [ks[0]] + ks[1..] && ls == [ls[0]] + ls[1..];
    } else if ks != [] {
      EntryNonEmpty(ks[0], a[ks[0]]);
    } else if ls != [] {
      EntryNonEmpty(ls[0], b[ls[0]]);
    }
  }

  lemma EntryNonEmpty(k: string, v: string)
    ensures |Entry(k, v)| >= 8
  {
    hide Size;
  }

  /** The preimage determines every covered attribute and the payload. */
  lemma PreimageInjective(ks: seq<string>, a: Attributes, p: string, ls: seq<string>, b: Attributes, q: string)
    requires Covers(ks, a) && Covers(ls, b) && Fits(a) && Fits(b)
    requires |Header(ks, a)| < 0x1_0000_0000 && |Header(ls, b)| < 0x1_0000_0000
    requires Preimage(ks, a, p) == Preimage(ls, b, q)
    ensures p == q && a - {CHECKSUM} == b - {CHECKSUM}
  {
    hide Header, Size, StrLess;
    SplitEqual(DOMAIN, Size(|Header(ks, a)|) + (Header(ks, a) + p), DOMAIN, Size(|Header(ls, b)|) + (Header(ls, b) + q));
    FieldEqual(Header(ks, a), p, Header(ls, b), q);
    HeaderEqual(ks, a, ls, b);
    assert (a - {CHECKSUM}).Keys == (b - {CHECKSUM}).Keys;
  }

  /** There is one sorted listing only, so the checksum is a function of the
      attributes. */
  lemma {:induction false} ListingUnique(ks: seq<string>, ls: seq<string>)
    requires SortedKeys(ks) && SortedKeys(ls) && forall k :: k in ks <==> k in ls
    ensures ks == ls
    decreases |ks|
  {
    hide StrLess;
    assert (forall i :: 0 <= i < |ls| ==> ls[i] in ls) && (forall i :: 0 <= i < |ks| ==> ks[i] in ks);
    if ks != [] {
      assert ks[0] in ls;
      HeadsEqual(ks, ls);
      assert ks == [ks[0]] + ks[1..] && ls == [ls[0]] + ls[1..];
      TailsSame(ks, ls);
      ListingUnique(ks[1..], ls[1..]);
    }
  }

  lemma HeadsEqual(ks: seq<string>, ls: seq<string>)
    requires SortedKeys(ks) && SortedKeys(ls) && ks != [] && ls != []
    requires ks[0] in ls && ls[0] in ks
    ensures ks[0] == ls[0]
  {
    hide StrLess;
    if ks[0] != ls[0] {
      assert StrLess(ls[0], ks[0]) && StrLess(ks[0], ls[0]);
      StrAsymmetric(ks[0], ls[0]);
    }
  }

  lemma TailsSame(ks: seq<string>, ls: seq<string>)
    requires SortedKeys(ks) && SortedKeys(ls) && ks != [] && ls != [] && ks[0] == ls[0]
    requires forall k :: k in ks <==> k in ls
    ensures forall k :: k in ks[1..] <==> k in ls[1..]
  {
    forall k
      ensures k in ks[1..] <==> k in ls[1..]
    {
      HeadNotInTail(ks);
      HeadNotInTail(ls);
      assert k in ks <==> k == ks[0] || k in ks[1..];
      assert k in ls <==> k == ls[0] || k in ls[1..];
    }
  }

  lemma HeadNotInTail(ks: seq<string>)
    requires SortedKeys(ks) && ks != []
    ensures ks[0] !in ks[1..]
  {
    if ks[0] in ks[1..] {
      var i :| 1 <= i < |ks| && ks[i] == ks[0];
      StrAsymmetric(ks[0], ks[i]);
    }
  }

  method InsertKey(ks: seq<string>, k: string) returns (r: seq<string>)
    requires SortedKeys(ks) && k !in ks
    ensures SortedKeys(r) && forall j :: j in r <==> j in ks || j == k
  {
    hide StrLess;
    var p := 0;
    while p < |ks| && StrLess(ks[p], k)
      invariant p <= |ks| && forall i :: 0 <= i < p ==> StrLess(ks[i], k)
    {
      p := p + 1;
    }
    forall q | p <= q < |ks|
      ensures StrLess(k, ks[q])
    {
      StrTotal(k, ks[p]);
      if p < q {
        StrTransitive(k, ks[p], ks[q]);
      }
    }
    assert ks == ks[..p] + ks[p..];
    r := ks[..p] + [k] + ks[p..];
  }

  /** The covered keys, sorted. */
  method SortKeys(a: Attributes) returns (ks: seq<string>)
    ensures Covers(ks, a)
  {
    hide StrLess;
    ks := [];
    var todo := a.Keys - {CHECKSUM};
    while todo != {}
      invariant todo <= a.Keys - {CHECKSUM} && SortedKeys(ks)
      invariant forall k :: k in ks <==> k in a && k != CHECKSUM && k !in todo
      decreases |todo|
    {
      var k :| k in todo;
      ks := InsertKey(ks, k);
      todo := todo - {k};
    }
  }

  method BuildHeader(ks: seq<string>, a: Attributes) returns (header: string)
    requires forall k :: k in ks ==> k in a
    ensures header == Header(ks, a)
  {
    hide Size;
    header := "";
    assert ks[0..] == ks && "" + Header(ks, a) == Header(ks, a);
    for i := 0 to |ks|
      invariant header + Header(ks[i..], a) == Header(ks, a)
    {
      var k, v := ks[i], a[ks[i]];
      ghost var tail := Header(ks[i + 1..], a);
      assert ks[i..][0] == k && ks[i..][1..] == ks[i + 1..];
      Assoc(header, Entry(k, v), tail);
      header := header + (Size(|k|) + (k + (Size(|v|) + v)));
    }
    assert header + "" == header;
  }

  /** The sorted listing of the covered attributes. */
  ghost function Listing(a: Attributes): (ks: seq<string>)
    ensures Covers(ks, a)
  {
    ListingExists(a.Keys - {CHECKSUM});
    var ks :| SortedKeys(ks) && forall k :: k in ks <==> k in a.Keys - {CHECKSUM};
    ks
  }

  lemma {:induction false} ListingExists(keys: set<string>)
    ensures exists ks :: SortedKeys(ks) && forall k :: k in ks <==> k in keys
    decreases |keys|
  {
    if keys == {} {
      assert SortedKeys([]) && forall k: string :: k in [] <==> k in keys;
    } else {
      var k :| k in keys;
      ListingExists(keys - {k});
      var ks: seq<string> :| SortedKeys(ks) && forall j :: j in ks <==> j in keys - {k};
      var r := InsertedListing(ks, k);
      assert SortedKeys(r) && forall j :: j in r <==> j in keys;
    }
  }

  lemma {:induction false} InsertedListing(ks: seq<string>, k: string) returns (r: seq<string>)
    requires SortedKeys(ks) && k !in ks
    ensures SortedKeys(r) && forall j :: j in r <==> j in ks || j == k
    decreases |ks|
  {
    hide StrLess;
    if ks == [] {
      r := [k];
    } else {
      assert ks == [ks[0]] + ks[1..];
      StrTotal(k, ks[0]);
      if StrLess(k, ks[0]) {
        r := [k] + ks;
        forall i | 0 <= i < |ks|
          ensures StrLess(k, ks[i])
        {
          if i > 0 {
            StrTransitive(k, ks[0], ks[i]);
          }
        }
      } else {
        var t := InsertedListing(ks[1..], k);
        r := [ks[0]] + t;
        forall i | 0 <= i < |t|
          ensures StrLess(ks[0], t[i])
        {
          assert t[i] in t;
          if t[i] != k {
            assert t[i] in ks[1..];
          }
        }
      }
    }
  }

  /** What the digest is computed over. */
  ghost function Signed(a: Attributes, payload: string): (s: string)
  {
    Preimage(Listing(a), a, payload)
  }

  /** SHA-256 in lower-case hex. */
  type Digest = string -> string

  method FrameChecksum(h: Digest, a: Attributes, payload: string) returns (sum: string)
    ensures sum == h(Signed(a, payload))
  {
    hide SortedKeys, Header, Size;
    var ks := SortKeys(a);
    ListingUnique(ks, Listing(a));
    var header := BuildHeader(ks, a);
    sum := h(DOMAIN + (Size(|header|) + (header + payload)));
  }

  method Seal(h: Digest, a: Attributes, payload: string) returns (sealed: Attributes)
    ensures sealed == a[CHECKSUM := h(Signed(a, payload))]
  {
    var sum := FrameChecksum(h, a, payload);
    sealed := a[CHECKSUM := sum];
  }

  /** Attaching the checksum does not change what it covers. */
  lemma SealCovers(a: Attributes, sum: string, payload: string)
    ensures Signed(a[CHECKSUM := sum], payload) == Signed(a, payload)
  {
    hide SortedKeys, Size, Entry;
    var b := a[CHECKSUM := sum];
    ListingUnique(Listing(a), Listing(b));
    HeaderSame(Listing(a), a, b);
  }

  lemma {:induction false} HeaderSame(ks: seq<string>, a: Attributes, b: Attributes)
    requires forall k :: k in ks ==> k in a && k in b && a[k] == b[k]
    ensures Header(ks, a) == Header(ks, b)
  {
    if ks != [] {
      HeaderSame(ks[1..], a, b);
    }
  }
}
