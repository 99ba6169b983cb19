/** Where a saved body goes: an optional subdirectory named by the first one
    or two bytes of the MD5 digest of the file name, rendered as lowercase
    hex, under the base directory. */
module Shard {

  newtype byte = x: int | 0 <= x < 256

  /** An MD5 digest. The hash itself is not modelled: it is passed in as a
      function from the file name to sixteen bytes. */
  type Digest = d: seq<byte> | |d| == 16
    witness [0, 0, 0, 0, 0, 0, 0, 0, 0, 0, 0, 0, 0, 0, 0, 0]

  predicate IsLowerHex(c: char) {
    '0' <= c <= '9' || 'a' <= c <= 'f'
  }

  predicate AllLowerHex(s: string) {
    forall i :: 0 <= i < |s| ==> IsLowerHex(s[i])
  }

  function HexDigit(n: int): (c: char)
    requires 0 <= n < 16
    ensures IsLowerHex(c)
  {
    if n < 10 then ('0' as int + n) as char else ('a' as int + n - 10) as char
  }

  function HexValue(c: char): (n: int)
    requires IsLowerHex(c)
    ensures 0 <= n < 16 && HexDigit(n) == c
  {
    if c <= '9' then c as int - '0' as int else c as int - 'a' as int + 10
  }

  /** The `%x` rendering of a byte slice: two lowercase hex digits per byte,
      high nibble first, no separator. */
  function Hex(bs: seq<byte>): (r: string)
    ensures |r| == 2 * |bs| && AllLowerHex(r)
  {
    if bs == [] then []
    else [HexDigit(bs[0] as int / 16), HexDigit(bs[0] as int % 16)] + Hex(bs[1..])
  }

  /** Reads a lowercase hex string back into bytes. */
  function Unhex(r: string): (bs: seq<byte>)
    requires |r| % 2 == 0 && AllLowerHex(r)
    ensures |bs| == |r| / 2
  {
    if r == [] then []
    else
      assert AllLowerHex(r[2..]) by {
        assert forall i :: 0 <= i < |r| - 2 ==> r[2..][i] == r[i + 2];
      }
      [(16 * HexValue(r[0]) + HexValue(r[1])) as byte] + Unhex(r[2..])
  }

  /** Rendering loses nothing: the bytes can be read back from the hex. */
  lemma {:induction false} UnhexHex(bs: seq<byte>)
    ensures Unhex(Hex(bs)) == bs
  {
    if bs != [] {
      var b := bs[0] as int;
      var r := Hex(bs);
      assert r[2..] == Hex(bs[1..]);
      assert HexValue(HexDigit(b / 16)) == b / 16;
      assert HexValue(HexDigit(b % 16)) == b % 16;
      UnhexHex(bs[1..]);
    }
  }

  /** Every lowercase hex string of even length is the rendering of some
      bytes, namely the ones read back from it. */
  lemma {:induction false} HexUnhex(r: string)
    requires |r| % 2 == 0 && AllLowerHex(r)
    ensures Hex(Unhex(r)) == r
  {
    if r != [] {
      assert AllLowerHex(r[2..]) by {
        assert forall i :: 0 <= i < |r| - 2 ==> r[2..][i] == r[i + 2];
      }
      var bs := Unhex(r);
      var hi, lo := HexValue(r[0]), HexValue(r[1]);
      assert bs[0] as int == 16 * hi + lo;
      assert (16 * hi + lo) / 16 == hi && (16 * hi + lo) % 16 == lo;
      assert bs[1..] == Unhex(r[2..]);
      HexUnhex(r[2..]);
      assert r == [r[0], r[1]] + r[2..];
    }
  }

  lemma {:induction false} HexAppend(a: seq<byte>, b: seq<byte>)
    ensures Hex(a + b) == Hex(a) + Hex(b)
  {
    if a == [] {
      assert a + b == b;
    } else {
      var x := [HexDigit(a[0] as int / 16), HexDigit(a[0] as int % 16)];
      assert (a + b)[0] == a[0] && (a + b)[1..] == a[1..] + b;
      HexAppend(a[1..], b);
      assert Hex(a + b) == x + Hex(a[1..] + b);
    }
  }

  /** How many digest bytes name the shard directory for a given shard depth. */
  function ShardBytes(subdirLength: int): nat {
    if subdirLength <= 0 then 0 else if subdirLength > 2 then 2 else 1
  }

  /** The directory a file is saved in: `base/` for a depth of 0 or less,
      otherwise `base/<hex>/` where `<hex>` renders the first byte of the
      digest (depth 1 or 2) or its first two bytes (any greater depth). */
  function DirectoryForFile(md5: string -> Digest, baseDirectory: string, filename: string,
                            subdirLength: int): (directory: string)
    ensures |directory| > |baseDirectory|
    ensures directory[..|baseDirectory| + 1] == baseDirectory + "/"
    ensures directory[|directory| - 1] == '/'
  {
    if subdirLength <= 0 then
      baseDirectory + "/"
    else
      var sliceEnd := if subdirLength > 2 then 2 else 1;
      baseDirectory + "/" + Hex(md5(filename)[0..sliceEnd]) + "/"
  }

  /** The position in a saved file's path where the file name begins; it
      depends on the base directory's length and the depth alone. */
  function DirectoryLength(baseDirectory: string, subdirLength: int): nat {
    |baseDirectory| + 1 + (if subdirLength <= 0 then 0 else 2 * ShardBytes(subdirLength) + 1)
  }

  /** The shard name inside a directory produced for `baseDirectory`. */
  function ShardName(baseDirectory: string, directory: string): string
    requires |directory| > |baseDirectory| + 1
  {
    directory[|baseDirectory| + 1..|directory| - 1]
  }

  /** The directory is `base/` followed, for a positive depth, by a shard name
      of exactly 2 (depth 1 or 2) or 4 (greater depth) lowercase hex digits
      and a '/'; the shard name renders the leading digest bytes of the file
      name, so it is determined by the file name and the number of bytes. */
  lemma DirectoryLayout(md5: string -> Digest, baseDirectory: string, filename: string,
                        subdirLength: int)
    ensures var directory := DirectoryForFile(md5, baseDirectory, filename, subdirLength);
      && |directory| == DirectoryLength(baseDirectory, subdirLength)
      && (subdirLength <= 0 ==> directory == baseDirectory + "/")
      && (subdirLength > 0 ==>
            var shard := ShardName(baseDirectory, directory);
            && directory == baseDirectory + "/" + shard + "/"
            && |shard| == (if subdirLength > 2 then 4 else 2)
            && AllLowerHex(shard)
            && Unhex(shard) == md5(filename)[..ShardBytes(subdirLength)])
  {
    if subdirLength > 0 {
      var bytes := md5(filename)[..ShardBytes(subdirLength)];
      var directory := DirectoryForFile(md5, baseDirectory, filename, subdirLength);
      assert directory == baseDirectory + "/" + Hex(bytes) + "/";
      assert ShardName(baseDirectory, directory) == Hex(bytes);
      UnhexHex(bytes);
    }
  }

  /** The shard name never exceeds four hex digits, whatever the depth:
      at most 256 directories for depth 1 or 2 and 65536 beyond. */
  lemma ShardWidthCapped(md5: string -> Digest, baseDirectory: string, filename: string,
                         subdirLength: int)
    ensures |DirectoryForFile(md5, baseDirectory, filename, subdirLength)| <= |baseDirectory| + 6
  {
  }

  /** The one-byte shard of a file name is the first half of its two-byte
      shard: raising the depth past 2 splits each directory further. */
  lemma ShardsNest(md5: string -> Digest, baseDirectory: string, filename: string)
    ensures var shallow := DirectoryForFile(md5, baseDirectory, filename, 1);
      var deep := DirectoryForFile(md5, baseDirectory, filename, 3);
      ShardName(baseDirectory, shallow) == ShardName(baseDirectory, deep)[..2]
  {
  }

  /** For a positive depth the shard name is the first 2 or 4 characters of
      the full hex rendering of the file name's digest. */
  lemma ShardIsDigestHexPrefix(md5: string -> Digest, baseDirectory: string, filename: string,
                               subdirLength: int)
    requires subdirLength > 0
    ensures var directory := DirectoryForFile(md5, baseDirectory, filename, subdirLength);
      ShardName(baseDirectory, directory) == Hex(md5(filename))[..2 * ShardBytes(subdirLength)]
  {
    var d := md5(filename);
    var k := ShardBytes(subdirLength);
    assert d == d[..k] + d[k..];
    HexAppend(d[..k], d[k..]);
    DirectoryLayout(md5, baseDirectory, filename, subdirLength);
    var directory := DirectoryForFile(md5, baseDirectory, filename, subdirLength);
    assert ShardName(baseDirectory, directory) == Hex(d[..k]);
  }

  /** The full path saveBodyToFile writes: the directory, then the file name. */
  function FilePath(md5: string -> Digest, baseDirectory: string, subdirLength: int,
                    filename: string): (fullPath: string)
    ensures |fullPath| > |baseDirectory| + |filename|
    ensures fullPath[..|baseDirectory| + 1] == baseDirectory + "/"
    ensures fullPath[|fullPath| - |filename|..] == filename
    ensures fullPath[|fullPath| - |filename| - 1] == '/'
  {
    var directory := DirectoryForFile(md5, baseDirectory, filename, subdirLength);
    assert (directory + filename)[..|baseDirectory| + 1] == directory[..|baseDirectory| + 1];
    directory + filename
  }

  /** Given the base directory and the depth, the file name can be read back
      from the full path, and what precedes it is the file's directory. */
  lemma FilePathSplits(md5: string -> Digest, baseDirectory: string, subdirLength: int,
                       filename: string)
    ensures var fullPath := FilePath(md5, baseDirectory, subdirLength, filename);
      var n := DirectoryLength(baseDirectory, subdirLength);
      && n <= |fullPath|
      && fullPath[n..] == filename
      && fullPath[..n] == DirectoryForFile(md5, baseDirectory, filename, subdirLength)
  {
  }

  /** The path depends on the depth only through the number of shard bytes:
      every depth above 2 gives the same path, and so do depths 1 and 2. */
  lemma FilePathDependsOnShardBytes(md5: string -> Digest, baseDirectory: string,
                                    filename: string, depth1: int, depth2: int)
    requires ShardBytes(depth1) == ShardBytes(depth2)
    ensures FilePath(md5, baseDirectory, depth1, filename)
         == FilePath(md5, baseDirectory, depth2, filename)
  {
  }

  /** The shard widths for depths -1, 0, 1, 2, 3 and 10. */
  lemma ShardWidthTable(md5: string -> Digest, baseDirectory: string, filename: string)
    ensures |DirectoryForFile(md5, baseDirectory, filename, -1)| == |baseDirectory| + 1
    ensures |DirectoryForFile(md5, baseDirectory, filename, 0)| == |baseDirectory| + 1
    ensures |DirectoryForFile(md5, baseDirectory, filename, 1)| == |baseDirectory| + 4
    ensures |DirectoryForFile(md5, baseDirectory, filename, 2)| == |baseDirectory| + 4
    ensures |DirectoryForFile(md5, baseDirectory, filename, 3)| == |baseDirectory| + 6
    ensures |DirectoryForFile(md5, baseDirectory, filename, 10)| == |baseDirectory| + 6
  {
  }
}
