/** The text form of link files in pkg/builder/cache_file_layer.go. */
module LinkCodec {
  import opened Prelude
  import opened Text

  /** `v1.Hash`; the zero value has empty fields. */
  datatype Hash = Hash(algorithm: string, hex: string)

  const NO_HASH := Hash("", "")

  datatype LinkInfo = LinkInfo(digest: Hash, diffID: Hash, size: int)

  predicate IsInt64(n: int) {
    -0x8000_0000_0000_0000 <= n <= 0x7FFF_FFFF_FFFF_FFFF
  }

  predicate IsHex(s: string) {
    forall c :: c in s ==> '0' <= c <= '9' || 'a' <= c <= 'f'
  }

  predicate ValidHash(h: Hash) {
    h.algorithm == "sha256" && |h.hex| == 64 && IsHex(h.hex)
  }

  predicate ValidInfo(i: LinkInfo) {
    ValidHash(i.digest) && ValidHash(i.diffID) && IsInt64(i.size)
  }

  /** `Hash.String`. */
  function HashText(h: Hash): string {
    h.algorithm + ":" + h.hex
  }

  /** `v1.NewHash`. */
  function NewHash(s: string): Option<Hash> {
    var n := IndexOf(s, ':');
    if n == |s| then None
    else
      var h := Hash(s[..n], s[n + 1..]);
      if ValidHash(h) then Some(h) else None
  }

  function Decimal(n: nat): (s: string)
    ensures s != "" && forall c :: c in s ==> '0' <= c <= '9'
  {
    var digit := ['0' + (n % 10) as char];
    if n < 10 then digit else Decimal(n / 10) + digit
  }

  /** The value of the leading digits, read on from `value`. */
  function ReadDigits(s: string, value: nat): nat {
    if s == "" || !('0' <= s[0] <= '9') then value
    else ReadDigits(s[1..], 10 * value + (s[0] - '0') as nat)
  }

  /** `%d`, for writing. */
  function IntText(n: int): string {
    if n < 0 then "-" + Decimal(-n) else Decimal(n)
  }

  /** `%d`, for reading: an optional sign, one or more digits, and a value that fits. */
  function ReadInt(s: string): Option<int> {
    var signed := s != "" && (s[0] == '-' || s[0] == '+');
    var digits := if signed then s[1..] else s;
    if digits == "" || !('0' <= digits[0] <= '9') then None
    else
      var value: int := ReadDigits(digits, 0);
      var n := if signed && s[0] == '-' then -value else value;
      if IsInt64(n) then Some(n) else None
  }

  /** The text that `encodeLinkInfo` writes. */
  function Encode(i: LinkInfo): string {
    HashText(i.digest) + " " + (HashText(i.diffID) + " " + IntText(i.size))
  }

  /** What `decodeLinkInfo` reads from the text of a link file. */
  function Decode(text: string): Option<LinkInfo> {
    var a := IndexOf(text, ' ');
    if a == |text| then None
    else
      var rest := text[a + 1..];
      var b := IndexOf(rest, ' ');
      if b == |rest| then None
      else
        match (NewHash(text[..a]), NewHash(rest[..b]), ReadInt(rest[b + 1..]))
        case (Some(d), Some(f), Some(n)) => Some(LinkInfo(d, f, n))
        case _ => None
  }

  /** What is in a link file: the two digests and the size, one space apart. */
  lemma LinkText(i: LinkInfo)
    requires ValidInfo(i)
    ensures Encode(i) == "sha256:" + i.digest.hex + " sha256:" + i.diffID.hex + " " + IntText(i.size)
  {
    var d, f := "sha256:" + i.digest.hex, "sha256:" + i.diffID.hex;
    assert d + " " + f == "sha256:" + i.digest.hex + " sha256:" + i.diffID.hex by {
      Assoc("sha256:" + i.digest.hex, " ", f);
    }
    Assoc(d, " ", f + " " + IntText(i.size));
    Assoc(d + " ", f, " " + IntText(i.size));
  }

  lemma HashTextReads(h: Hash)
    requires ValidHash(h)
    ensures NewHash(HashText(h)) == Some(h)
    ensures ' ' !in HashText(h)
  {
    var s := HashText(h);
    assert s[..6] == "sha256" && s[7..] == h.hex;
    IndexOfUnique(s, ':', 6);
  }

  lemma {:induction false} DigitsAppend(a: string, b: string, value: nat)
    requires forall c :: c in a ==> '0' <= c <= '9'
    ensures ReadDigits(a + b, value) == ReadDigits(b, ReadDigits(a, value))
    decreases |a|
  {
    if a == "" {
      assert a + b == b;
    } else {
      assert a[0] in a && forall c :: c in a[1..] ==> c in a;
      assert (a + b)[1..] == a[1..] + b;
      DigitsAppend(a[1..], b, 10 * value + (a[0] - '0') as nat);
    }
  }

  lemma {:induction false} DecimalReads(n: nat)
    ensures ReadDigits(Decimal(n), 0) == n
  {
    var c := '0' + (n % 10) as char;
    assert [c][1..] == "";
    if n >= 10 {
      DecimalReads(n / 10);
      DigitsAppend(Decimal(n / 10), [c], 0);
    }
  }

  lemma IntReads(n: int)
    requires IsInt64(n)
    ensures ReadInt(IntText(n)) == Some(n)
  {
    var digits := Decimal(if n < 0 then -n else n);
    DecimalReads(if n < 0 then -n else n);
    assert digits[0] in digits;
    assert ("-" + digits)[1..] == digits;
  }

  lemma CutAtSpace(a: string, b: string)
    requires ' ' !in a
    ensures var s := a + " " + b; IndexOf(s, ' ') == |a| && s[..|a|] == a && s[|a| + 1..] == b
  {
    var s := a + " " + b;
    assert s[..|a|] == a;
    IndexOfUnique(s, ' ', |a|);
  }

  /** A link file reads back as what was written. */
  lemma LinkRoundTrip(i: LinkInfo)
    requires ValidInfo(i)
    ensures Decode(Encode(i)) == Some(i)
  {
    HashTextReads(i.digest);
    HashTextReads(i.diffID);
    CutAtSpace(HashText(i.digest), HashText(i.diffID) + " " + IntText(i.size));
    CutAtSpace(HashText(i.diffID), IntText(i.size));
    IntReads(i.size);
  }
}
