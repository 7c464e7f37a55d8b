/** Shared vocabulary of the model: optional values, errno codes, owner
    pairs and the path join used when a child directory job is built. */
module Base {

  /** The conventional Some/None datatype, standing in for a nullable pointer. */
  datatype Option<+T> = None | Some(value: T) {
    function GetOr(default: T): T {
      match this
      case Some(v) => v
      case None => default
    }
  }

  /** A failed system call leaves a positive value in errno. */
  type Errno = e: int | e > 0 witness 1

  /** A 32-bit unsigned user or group id. */
  const ID_LIMIT: nat := 0x1_0000_0000
  type Id = x: nat | x < ID_LIMIT

  /** `(uid_t)-1`, the id that marks an unused credential slot. */
  const NO_ID: Id := 0xFFFF_FFFF

  /** An (owning user, owning group) pair, as in `struct creds` and in `st_uid`/`st_gid`. */
  datatype Owner = Owner(u: Id, g: Id)

  /** Size of the path buffer of a directory job (DJ_PATH_SZ). */
  const DJ_PATH_SZ: nat := 2048

  /** `dpath + "/" + name`, the path of a child directory job. */
  function JoinPath(dpath: string, name: string): string {
    dpath + "/" + name
  }

  /** Bytes in the UTF-8 encoding of one character. */
  function Utf8Width(c: char): (r: nat)
    ensures 1 <= r <= 4
    ensures r == 1 <==> (c as int) < 0x80
  {
    if (c as int) < 0x80 then 1
    else if (c as int) < 0x800 then 2
    else if (c as int) < 0x1_0000 then 3
    else 4
  }

  /** `strlen` of a name or path: the length of its UTF-8 encoding, not
      the number of characters. */
  function ByteLen(s: string): (r: nat)
    ensures |s| <= r <= 4 * |s|
  {
    if s == [] then 0 else ByteLen(s[..|s| - 1]) + Utf8Width(s[|s| - 1])
  }

  /** `strlen` of a concatenation is the sum of the lengths. */
  lemma {:induction false} ByteLenConcat(a: string, b: string)
    ensures ByteLen(a + b) == ByteLen(a) + ByteLen(b)
    decreases |b|
  {
    if b == [] {
      assert a + b == a;
    } else {
      var b' := b[..|b| - 1];
      assert (a + b)[..|a + b| - 1] == a + b';
      assert (a + b)[|a + b| - 1] == b[|b| - 1];
      ByteLenConcat(a, b');
    }
  }

  /** On ASCII text, bytes and characters coincide. */
  lemma {:induction false} ByteLenAscii(s: string)
    requires forall i :: 0 <= i < |s| ==> (s[i] as int) < 0x80
    ensures ByteLen(s) == |s|
    decreases |s|
  {
    if s != [] {
      ByteLenAscii(s[..|s| - 1]);
    }
  }

  /** A character outside ASCII takes more than one byte: "\U{E9}" has
      length 1 but `strlen` 2. */
  lemma AccentTakesTwoBytes()
    ensures ByteLen("\U{E9}") == 2 && |"\U{E9}"| == 1
  {
    assert "\U{E9}"[..0] == [];
  }

  /** A joined path is one byte longer than its two parts. */
  lemma JoinByteLen(dpath: string, name: string)
    ensures ByteLen(JoinPath(dpath, name)) == ByteLen(dpath) + 1 + ByteLen(name)
  {
    ByteLenConcat(dpath, "/");
    ByteLenConcat(dpath + "/", name);
    assert "/"[..0] == [];
  }

  /** The integers lo, lo+1, ..., hi-1 in increasing order. */
  function Range(lo: nat, hi: nat): (r: seq<nat>)
    requires lo <= hi
    ensures |r| == hi - lo
    ensures forall i :: 0 <= i < |r| ==> r[i] == lo + i
    decreases hi - lo
  {
    if lo == hi then [] else [lo] + Range(lo + 1, hi)
  }

  /** No value occurs twice in s. */
  predicate Distinct(s: seq<nat>) {
    forall i, j :: 0 <= i < j < |s| ==> s[i] != s[j]
  }
}
