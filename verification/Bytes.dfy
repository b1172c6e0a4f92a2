/** Pages as bytes: 4-byte integers, and blobs as a length word followed by the bytes. */
module Bytes {

  type byte = x: int | 0 <= x < 256

  type Image = seq<byte>

  const INT_SIZE: nat := 4

  predicate IsInt32(v: int) {
    -0x8000_0000 <= v < 0x8000_0000
  }

  /** The four bytes of an int, lowest first. */
  function IntBytes(v: int): (bs: Image)
    requires IsInt32(v)
    ensures |bs| == INT_SIZE
  {
    var u := if v < 0 then v + 0x1_0000_0000 else v;
    [u % 0x100, u / 0x100 % 0x100, u / 0x1_0000 % 0x100, u / 0x100_0000]
  }

  function BytesInt(bs: Image): (v: int)
    requires |bs| == INT_SIZE
    ensures IsInt32(v)
  {
    var u: int := bs[0] as int + 0x100 * (bs[1] as int) + 0x1_0000 * (bs[2] as int) + 0x100_0000 * (bs[3] as int);
    if u >= 0x8000_0000 then u - 0x1_0000_0000 else u
  }

  lemma IntRoundTrip(v: int)
    requires IsInt32(v)
    ensures BytesInt(IntBytes(v)) == v
  {
    var u := if v < 0 then v + 0x1_0000_0000 else v;
    assert u / 0x1_0000 == u / 0x100 / 0x100;
    assert u / 0x100_0000 == u / 0x1_0000 / 0x100;
    assert u == u % 0x100 + 0x100 * (u / 0x100);
    assert u / 0x100 == u / 0x100 % 0x100 + 0x100 * (u / 0x1_0000);
    assert u / 0x1_0000 == u / 0x1_0000 % 0x100 + 0x100 * (u / 0x100_0000);
  }

  function GetInt(p: Image, at: nat): (v: int)
    requires at + INT_SIZE <= |p|
    ensures IsInt32(v)
  {
    BytesInt(p[at..at + INT_SIZE])
  }

  /** A page with `bs` copied over it at `at`. */
  function Splice(p: Image, at: nat, bs: Image): (q: Image)
    requires at + |bs| <= |p|
    ensures |q| == |p|
  {
    p[..at] + bs + p[at + |bs|..]
  }

  lemma SpliceParts(p: Image, at: nat, bs: Image)
    requires at + |bs| <= |p|
    ensures Splice(p, at, bs)[..at] == p[..at]
    ensures Splice(p, at, bs)[at..at + |bs|] == bs
    ensures Splice(p, at, bs)[at + |bs|..] == p[at + |bs|..]
  {
  }

  function SetInt(p: Image, at: nat, v: int): (q: Image)
    requires at + INT_SIZE <= |p| && IsInt32(v)
    ensures |q| == |p|
  {
    Splice(p, at, IntBytes(v))
  }

  lemma GetSetInt(p: Image, at: nat, v: int)
    requires at + INT_SIZE <= |p| && IsInt32(v)
    ensures GetInt(SetInt(p, at, v), at) == v
  {
    assert SetInt(p, at, v)[at..at + INT_SIZE] == IntBytes(v);
    IntRoundTrip(v);
  }

  function Blob(bs: Image): (r: Image)
    requires IsInt32(|bs|)
    ensures |r| == INT_SIZE + |bs|
  {
    IntBytes(|bs|) + bs
  }

  /** A length word whose bytes all lie in the page. */
  predicate HasBlob(p: Image, at: nat) {
    at + INT_SIZE <= |p| && 0 <= GetInt(p, at) <= |p| - at - INT_SIZE
  }

  function GetBytes(p: Image, at: nat): (bs: Image)
    requires HasBlob(p, at)
    ensures |bs| == GetInt(p, at)
  {
    p[at + INT_SIZE..at + INT_SIZE + GetInt(p, at)]
  }

  /** A blob read back from inside any page. */
  lemma BlobAt(p: Image, at: nat, bs: Image)
    requires IsInt32(|bs|) && at + INT_SIZE + |bs| <= |p|
    requires p[at..at + INT_SIZE + |bs|] == Blob(bs)
    ensures HasBlob(p, at) && GetBytes(p, at) == bs
  {
    var b := p[at..at + INT_SIZE + |bs|];
    assert p[at..at + INT_SIZE] == b[..INT_SIZE] == IntBytes(|bs|);
    IntRoundTrip(|bs|);
    assert p[at + INT_SIZE..at + INT_SIZE + |bs|] == b[INT_SIZE..] == bs;
  }

  /** Copying bytes into a page that an object holds. */
  method CopyInto(page: array<byte>, at: nat, bs: Image)
    requires at + |bs| <= page.Length
    modifies page
    ensures page[..] == Splice(old(page[..]), at, bs)
  {
    forall i | 0 <= i < |bs| {
      page[at + i] := bs[i];
    }
    assert page[..] == Splice(old(page[..]), at, bs);
  }
}
