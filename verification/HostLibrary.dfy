/** A library that meets the assumptions of `HostViews`: they do not contradict each other. */
module HostLibrary {
  import opened Wrappers
  import opened Strings
  import opened HostViews

  /** A field as text that ends where the field ends. */
  function Field(s: string): (r: string)
    ensures |r| == 2 * |s| + 1
  {
    if s == "" then "." else "x" + [s[0]] + Field(s[1..])
  }

  function Fields(list: seq<string>): string {
    if list == [] then "" else Field(list[0]) + Fields(list[1..])
  }

  lemma {:induction false} FieldEnds(a: string, b: string, left: string, right: string)
    requires Field(a) + left == Field(b) + right
    ensures a == b && left == right
  {
    var (x, y) := (Field(a) + left, Field(b) + right);
    assert x[0] == y[0];
    if a == "" {
      assert x[1..] == left && y[1..] == right;
    } else {
      assert x[1] == a[0] && y[1] == b[0];
      assert x[2..] == Field(a[1..]) + left && y[2..] == Field(b[1..]) + right;
      FieldEnds(a[1..], b[1..], left, right);
      assert a == [a[0]] + a[1..] && b == [b[0]] + b[1..];
    }
  }

  lemma {:induction false} FieldsDiffer(a: seq<string>, b: seq<string>)
    requires |a| == |b| && Fields(a) == Fields(b)
    ensures a == b
  {
    if a != [] {
      FieldEnds(a[0], b[0], Fields(a[1..]), Fields(b[1..]));
      FieldsDiffer(a[1..], b[1..]);
      assert a == [a[0]] + a[1..] && b == [b[0]] + b[1..];
    }
  }

  const BASE := 4096

  function Power(k: nat): nat {
    if k == 0 then 1 else BASE * Power(k - 1)
  }

  function Digits(n: nat, k: nat): (r: string)
    ensures |r| == k
  {
    if k == 0 then "" else [(n % BASE) as char] + Digits(n / BASE, k - 1)
  }

  lemma {:induction false} DigitsDiffer(m: nat, n: nat, k: nat)
    requires m < Power(k) && n < Power(k) && Digits(m, k) == Digits(n, k)
    ensures m == n
  {
    if k > 0 {
      assert Digits(m, k)[0] == Digits(n, k)[0] && Digits(m, k)[1..] == Digits(n, k)[1..];
      DigitsDiffer(m / BASE, n / BASE, k - 1);
    }
  }

  function Texts(o: Origin): seq<string> {
    [o.logicalUri, o.coordinate.org,
     if o.coordinate.project.Some? then "-" + o.coordinate.project.value else "",
     o.coordinate.package, o.coordinate.version, o.source, o.target, o.archiveSha256, o.descriptorSha256,
     Digits(o.archiveSize, 6)]
  }

  function Encode(o: Origin): Bytes {
    Fields(Texts(o))
  }

  ghost function Decode(b: Bytes): (r: Option<Origin>)
    ensures r.Some? ==> Encode(r.value) == b
    ensures r.None? ==> forall o :: Encode(o) != b
  {
    if o: Origin :| Encode(o) == b then Some(o) else None
  }

  lemma {:induction false} EncodeDiffers(o: Origin, p: Origin)
    requires Encode(o) == Encode(p)
    ensures o == p
  {
    var (x, y) := (Texts(o), Texts(p));
    FieldsDiffer(x, y);
    assert forall i :: 0 <= i < 10 ==> x[i] == y[i];
    assert x[2] == y[2] && x[9] == y[9];
    assert Power(6) >= 0x1_0000_0000_0000_0000;
    DigitsDiffer(o.archiveSize, p.archiveSize, 6);
    if o.coordinate.project.Some? && p.coordinate.project.Some? {
      assert x[2][1..] == o.coordinate.project.value && y[2][1..] == p.coordinate.project.value;
    }
    assert o.coordinate == p.coordinate;
  }

  lemma {:induction false} CharactersAreBytes(s: string)
    ensures |s| <= Utf8Length(s)
  {
    if s != "" {
      CharactersAreBytes(s[1..]);
    }
  }

  function Lengths(list: seq<string>): nat {
    if list == [] then 0 else |list[0]| + Lengths(list[1..])
  }

  lemma {:induction false} FieldsLength(list: seq<string>)
    ensures |Fields(list)| == 2 * Lengths(list) + |list|
  {
    if list != [] {
      FieldsLength(list[1..]);
    }
  }

  lemma {:induction false} EncodeIsShort(o: Origin)
    ensures |Encode(o)| <= RECORD_BYTES + 6 * FieldBytes(o)
  {
    var texts := Texts(o);
    FieldsLength(texts);
    forall i | 0 <= i < 10 ensures |texts[i]| <= Utf8Length(texts[i]) {
      CharactersAreBytes(texts[i]);
    }
    if o.coordinate.project.Some? {
      CharactersAreBytes(o.coordinate.project.value);
    }
    TenLengths(texts);
  }

  lemma {:induction false} TenLengths(t: seq<string>)
    requires |t| == 10
    ensures Lengths(t) == |t[0]| + |t[1]| + |t[2]| + |t[3]| + |t[4]| + |t[5]| + |t[6]| + |t[7]| + |t[8]| + |t[9]|
  {
    assert Lengths(t[9..]) == |t[9]| && Lengths(t[8..]) == |t[8]| + Lengths(t[8..][1..]) && t[8..][1..] == t[9..];
    forall i | 0 <= i < 9 ensures Lengths(t[i..]) == |t[i]| + Lengths(t[i + 1..]) {
      assert t[i..][1..] == t[i + 1..];
    }
    assert t[0..] == t;
  }

  function Repeat(n: nat): string {
    if n == 0 then "" else "0" + Repeat(n - 1)
  }

  lemma {:induction false} RepeatLength(n: nat)
    ensures Utf8Length(Repeat(n)) == n
  {
    if n > 0 {
      RepeatLength(n - 1);
      assert Repeat(n)[1..] == Repeat(n - 1);
    }
  }

  /** It accepts every archive that is not too large, as an empty package. */
  lemma {:induction false} ALibraryExists() returns (lib: Library)
    ensures lib.Valid() && forall b :: |b| < 0x1_0000_0000_0000_0000 ==> lib.inspect(b).Some?
  {
    var digest := (b: Bytes) => Repeat(DIGEST_BYTES);
    var descriptor := Descriptor("", "", []);
    lib := Library(
      s => s == "a", digest,
      b => if |b| >= 0x1_0000_0000_0000_0000 then None
           else Some(Verified(Manifest("a", "a", "a", ""), descriptor, Repeat(DIGEST_BYTES), |b|)),
      (_, _) => None, _ => "", Encode, Decode, ["descriptor"]);
    RepeatLength(DIGEST_BYTES);
    forall o ensures |Encode(o)| <= RECORD_BYTES + 6 * FieldBytes(o) && Decode(Encode(o)) == Some(o) {
      EncodeIsShort(o);
      DecodeFinds(o);
    }
  }

  lemma {:induction false} DecodeFinds(o: Origin)
    ensures Decode(Encode(o)) == Some(o)
  {
    EncodeDiffers(Decode(Encode(o)).value, o);
  }
}
