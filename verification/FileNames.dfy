/** Cache file names: the last component is the md5 of the key in hexadecimal. */
module FileNames {
  import opened Bytes

  type Octet = b: int | 0 <= b < 256

  const SLASH: Byte := 47
  const KEY_LEN := 16

  /** What follows the last slash. */
  function BaseName(path: Str): Str {
    if path == [] || path[|path| - 1] == SLASH then [] else BaseName(path[..|path| - 1]) + [path[|path| - 1]]
  }

  lemma {:induction false} BaseNameOfJoin(dir: Str, name: Str)
    requires SLASH !in name
    ensures BaseName(name) == name
    ensures BaseName(dir + [SLASH] + name) == name
  {
    if name == [] {
    } else {
      var n := |name| - 1;
      assert name == name[..n] + [name[n]];
      BaseNameOfJoin(dir, name[..n]);
      var path := dir + [SLASH] + name;
      assert path[..|path| - 1] == dir + [SLASH] + name[..n];
    }
  }

  /** Steps back to the last slash, as filename_key and path_known do. */
  method BaseStart(path: Str) returns (p: nat)
    ensures p <= |path| && path[p..] == BaseName(path)
  {
    p := |path|;
    assert path[..p] == path && path[p..] == [];
    while p > 0 && path[p - 1] != SLASH
      invariant 0 <= p <= |path|
      invariant BaseName(path) == BaseName(path[..p]) + path[p..]
    {
      assert path[..p][..p - 1] == path[..p - 1] && [path[p - 1]] + path[p..] == path[p - 1..];
      p := p - 1;
    }
    assert path[..p] == [] || path[..p][p - 1] == SLASH;
  }

  /** A file name that the scan takes for a cache file: 32 bytes, of any kind. */
  predicate PathKnown(path: Str) {
    |BaseName(path)| == 2 * KEY_LEN
  }

  // ----- hexadecimal digits -----

  predicate IsHex(c: Octet) {
    48 <= c <= 57 || 97 <= c <= 102 || 65 <= c <= 70
  }

  /** ngx_hextoi of one digit, in either case. */
  function HexValue(c: Octet): Option<nat>
    ensures HexValue(c).Some? <==> IsHex(c)
    ensures HexValue(c).Some? ==> HexValue(c).value < 16
  {
    if 48 <= c <= 57 then Some(c - 48)
    else if 97 <= c <= 102 then Some(c - 87)
    else if 65 <= c <= 70 then Some(c - 55)
    else None
  }

  function HexDigit(v: nat): Byte
    requires v < 16
  {
    if v < 10 then 48 + v else 87 + v
  }

  /** The lower-case name that nginx gives the file of a key. */
  function HexName(key: seq<Octet>): Str {
    if key == [] then [] else HexName(key[..|key| - 1]) + [HexDigit(key[|key| - 1] / 16), HexDigit(key[|key| - 1] % 16)]
  }

  /** The key a path decodes to: its base name must be 32 hexadecimal digits. */
  method FilenameKey(path: Str) returns (key: Option<seq<Octet>>)
    ensures key == KeyOf(path)
  {
    var p := BaseStart(path);
    if |path| - p != 2 * KEY_LEN {
      return None;
    }
    var name := path[p..];
    var bytes: seq<Octet> := [];
    for i := 0 to KEY_LEN
      invariant |bytes| == i && Spells(name[..2 * i], bytes)
    {
      var hi, lo := HexValue(name[i * 2]), HexValue(name[i * 2 + 1]);
      if hi.None? || lo.None? {
        NotSpelled(name, if hi.None? then i * 2 else i * 2 + 1);
        return None;
      }
      var octet: Octet := hi.value * 16 + lo.value;
      SpellsMore(name, bytes, octet, i);
      bytes := bytes + [octet];
    }
    assert name[..2 * KEY_LEN] == name;
    forall k | Spells(name, k) ensures k == bytes {
      SpellsUnique(name, bytes, k);
    }
    return Some(bytes);
  }

  lemma SpellsMore(name: Str, bytes: seq<Octet>, octet: Octet, i: nat)
    requires |bytes| == i && 2 * i + 1 < |name| && Spells(name[..2 * i], bytes)
    requires HexValue(name[i * 2]) == Some(octet / 16) && HexValue(name[i * 2 + 1]) == Some(octet % 16)
    ensures Spells(name[..2 * (i + 1)], bytes + [octet])
  {
    forall j | 0 <= j < i
      ensures name[..2 * (i + 1)][2 * j] == name[..2 * i][2 * j]
      ensures name[..2 * (i + 1)][2 * j + 1] == name[..2 * i][2 * j + 1]
    {
    }
  }

  /** name is a spelling of key, digit by digit, in any letter case. */
  predicate Spells(name: Str, key: seq<Octet>) {
    |name| == 2 * |key| &&
    forall i :: 0 <= i < |key| ==>
      && HexValue(name[2 * i]) == Some(key[i] / 16)
      && HexValue(name[2 * i + 1]) == Some(key[i] % 16)
  }

  ghost function KeyOf(path: Str): Option<seq<Octet>> {
    if PathKnown(path) && exists key :: Spells(BaseName(path), key) then
      var key :| Spells(BaseName(path), key);
      Some(key)
    else None
  }

  lemma NotSpelled(name: Str, i: nat)
    requires i < |name| && !IsHex(name[i])
    ensures forall key :: !Spells(name, key)
  {
    forall key ensures !Spells(name, key) {
      if Spells(name, key) {
        SpelledDigit(name, key, i);
      }
    }
  }

  lemma SpelledDigit(name: Str, key: seq<Octet>, i: nat)
    requires Spells(name, key) && i < |name|
    ensures IsHex(name[i])
  {
    assert HexValue(name[2 * (i / 2)]).Some? && HexValue(name[2 * (i / 2) + 1]).Some?;
    assert i == 2 * (i / 2) || i == 2 * (i / 2) + 1;
  }

  lemma SpellsUnique(name: Str, key: seq<Octet>, key': seq<Octet>)
    requires Spells(name, key) && Spells(name, key')
    ensures key == key'
  {
    forall i | 0 <= i < |key| ensures key[i] == key'[i] {
      assert key[i] == 16 * (key[i] / 16) + key[i] % 16;
    }
  }

  lemma {:induction false} HexNameSpells(key: seq<Octet>)
    ensures Spells(HexName(key), key)
    ensures SLASH !in HexName(key)
  {
    if key != [] {
      var n := |key| - 1;
      HexNameSpells(key[..n]);
      forall i | 0 <= i < |key|
        ensures HexValue(HexName(key)[2 * i]) == Some(key[i] / 16)
        ensures HexValue(HexName(key)[2 * i + 1]) == Some(key[i] % 16)
      {
        if i < n {
          assert HexName(key)[2 * i] == HexName(key[..n])[2 * i];
          assert HexName(key)[2 * i + 1] == HexName(key[..n])[2 * i + 1];
        }
      }
    }
  }

  /** The name that nginx gives a file decodes to the file's key, in any directory. */
  lemma NameRoundTrip(dir: Str, key: seq<Octet>)
    requires |key| == KEY_LEN
    ensures KeyOf(HexName(key)) == Some(key)
    ensures KeyOf(dir + [SLASH] + HexName(key)) == Some(key)
  {
    HexNameSpells(key);
    BaseNameOfJoin(dir, HexName(key));
    forall k | Spells(HexName(key), k) ensures k == key {
      SpellsUnique(HexName(key), key, k);
    }
  }

  /** A path decodes exactly when its base name is 32 hexadecimal digits, and then
      to the one key whose name it is up to letter case. */
  lemma DecodesIffHexName(path: Str, key: seq<Octet>)
    requires |key| == KEY_LEN
    ensures KeyOf(path) == Some(key) <==> SameFolded(BaseName(path), HexName(key))
  {
    var name := BaseName(path);
    HexNameSpells(key);
    if SameFolded(name, HexName(key)) {
      FoldedSpells(name, HexName(key), key);
      forall k | Spells(name, k) ensures k == key { SpellsUnique(name, key, k); }
    }
    if KeyOf(path) == Some(key) {
      SpelledAlike(name, HexName(key), key);
    }
  }

  lemma FoldedSpells(name: Str, other: Str, key: seq<Octet>)
    requires SameFolded(name, other) && Spells(other, key)
    ensures Spells(name, key)
  {
    forall i | 0 <= i < |key|
      ensures HexValue(name[2 * i]) == Some(key[i] / 16) && HexValue(name[2 * i + 1]) == Some(key[i] % 16)
    {
      FoldedDigit(name[2 * i], other[2 * i]);
      FoldedDigit(name[2 * i + 1], other[2 * i + 1]);
    }
  }

  lemma SpelledAlike(name: Str, other: Str, key: seq<Octet>)
    requires Spells(name, key) && Spells(other, key)
    ensures SameFolded(name, other)
  {
    forall i | 0 <= i < |name| ensures Lower(name[i]) == Lower(other[i]) {
      var j := i / 2;
      assert HexValue(name[2 * j]) == HexValue(other[2 * j]);
      assert HexValue(name[2 * j + 1]) == HexValue(other[2 * j + 1]);
      assert i == 2 * j || i == 2 * j + 1;
      SpelledDigit(name, key, i);
      FoldedDigit(name[i], other[i]);
    }
  }

  lemma FoldedDigit(c: Byte, d: Byte)
    ensures Lower(c) == Lower(d) ==> HexValue(c) == HexValue(d)
    ensures IsHex(c) && HexValue(c) == HexValue(d) ==> Lower(c) == Lower(d)
  {
  }
}
