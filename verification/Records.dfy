/** Manifest records (`struct sbuf`) and the order they are kept in (src/sbuf.c). */
module Records {
  import opened Wrappers
  import opened PathOrder

  const CMD_DATAPTH := 't'
  const CMD_STAT := 'r'
  const CMD_FILE := 'f'
  const CMD_ENC_FILE := 'y'
  const CMD_DIRECTORY := 'd'
  const CMD_SOFT_LINK := 'l'
  const CMD_HARD_LINK := 'L'
  const CMD_SPECIAL := 's'
  const CMD_METADATA := 'm'
  const CMD_ENC_METADATA := 'n'
  const CMD_EFS_FILE := 'k'
  const CMD_VSS := 'v'
  const CMD_ENC_VSS := 'V'
  const CMD_VSS_T := 'u'
  const CMD_ENC_VSS_T := 'U'
  const CMD_GEN := 'c'
  const CMD_APPEND := 'a'
  const CMD_INTERRUPT := 'i'
  const CMD_WARNING := 'w'
  const CMD_END_FILE := 'x'

  /** The decoded fields of a stat record that the server looks at. */
  datatype Stat = Stat(isDir: bool, mtime: int, ctime: int, compression: int)

  datatype Sbuf = Sbuf(
    cmd: char,
    path: string,
    linkto: Option<string>,
    datapth: Option<string>,
    statbuf: string,
    statp: Stat,
    endfile: Option<string>)

  predicate IsLink(cmd: char) { cmd == CMD_SOFT_LINK || cmd == CMD_HARD_LINK }

  predicate FileData(cmd: char) {
    || cmd == CMD_FILE || cmd == CMD_ENC_FILE
    || cmd == CMD_METADATA || cmd == CMD_ENC_METADATA
    || cmd == CMD_VSS || cmd == CMD_ENC_VSS
    || cmd == CMD_VSS_T || cmd == CMD_ENC_VSS_T
    || cmd == CMD_EFS_FILE
  }

  /** `dpth_is_compressed`: the manifest says, or for want of that the suffix. */
  predicate DpthIsCompressed(compression: int, datapth: string) {
    compression > 0 || (compression < 0 && |datapth| >= 3 && datapth[|datapth| - 3..] == ".gz")
  }

  predicate IsMeta(cmd: char) { cmd == CMD_METADATA || cmd == CMD_ENC_METADATA }
  predicate IsVss(cmd: char) { cmd == CMD_VSS || cmd == CMD_ENC_VSS }
  predicate IsVssT(cmd: char) { cmd == CMD_VSS_T || cmd == CMD_ENC_VSS_T }

  /** `sbuf_pathcmp`: path order, then VSS first and metadata or the VSS footer last. */
  function SbufPathCmp(a: Sbuf, b: Sbuf): int {
    var r := PathCmp(a.path, b.path);
    if r != 0 then r
    else if IsMeta(a.cmd) then
      if IsMeta(b.cmd) then 0 else 1
    else if IsVss(a.cmd) then
      if IsVss(b.cmd) then 0 else -1
    else if IsVssT(a.cmd) then
      if IsVssT(b.cmd) then 0 else 1
    else if IsMeta(b.cmd) then -1
    else if IsVss(b.cmd) then 1
    else if IsVssT(b.cmd) then -1
    else 0
  }

  // ----- Keys: what the comparison really orders by -----

  datatype Key = Key(path: string, slot: int)

  function SlotOf(cmd: char): int {
    if IsVss(cmd) then 0 else if IsMeta(cmd) || IsVssT(cmd) then 2 else 1
  }

  function KeyOf(sb: Sbuf): Key { Key(sb.path, SlotOf(sb.cmd)) }

  predicate Before(a: Key, b: Key) {
    PathCmp(a.path, b.path) < 0 || (a.path == b.path && a.slot < b.slot)
  }

  lemma BeforeTotal(a: Key, b: Key)
    ensures Before(a, b) || a == b || Before(b, a)
    ensures !(Before(a, b) && Before(b, a))
    ensures !Before(a, a)
  {
    PathCmpAntisymmetric(a.path, b.path);
    PathCmpAntisymmetric(a.path, a.path);
  }

  lemma BeforeTransitive(a: Key, b: Key, c: Key)
    requires Before(a, b) && Before(b, c)
    ensures Before(a, c)
  {
    if PathCmp(a.path, b.path) < 0 && PathCmp(b.path, c.path) < 0 {
      PathCmpTransitive(a.path, b.path, c.path);
    }
  }

  /** A client is built for one platform; only Windows ones send VSS records and
      only the others send extra metadata. */
  datatype Platform = Unix | Windows

  predicate Sends(p: Platform, sb: Sbuf) {
    match p
    case Unix => !IsVss(sb.cmd) && !IsVssT(sb.cmd)
    case Windows => !IsMeta(sb.cmd)
  }

  predicate AllSent(p: Platform, s: seq<Sbuf>) { forall i :: 0 <= i < |s| ==> Sends(p, s[i]) }

  lemma SentAt(pf: Platform, s: seq<Sbuf>, i: nat)
    requires AllSent(pf, s) && i < |s|
    ensures Sends(pf, s[i])
  {
  }

  /** On one platform the comparison is the key order, hence a total preorder. */
  lemma SbufPathCmpIsKeyOrder(p: Platform, a: Sbuf, b: Sbuf)
    requires Sends(p, a) && Sends(p, b)
    ensures SbufPathCmp(a, b) < 0 <==> Before(KeyOf(a), KeyOf(b))
    ensures SbufPathCmp(a, b) == 0 <==> KeyOf(a) == KeyOf(b)
    ensures SbufPathCmp(a, b) > 0 <==> Before(KeyOf(b), KeyOf(a))
  {
    PathCmpAntisymmetric(a.path, b.path);
  }

  /** Swapping the arguments negates the answer exactly when a metadata record
      does not meet a VSS footer of the same path. */
  lemma SbufPathCmpAntisymmetric(a: Sbuf, b: Sbuf)
    ensures SbufPathCmp(a, b) == -SbufPathCmp(b, a) <==>
            !(a.path == b.path && ((IsMeta(a.cmd) && IsVssT(b.cmd)) || (IsVssT(a.cmd) && IsMeta(b.cmd))))
  {
    PathCmpAntisymmetric(a.path, b.path);
  }

  /** The clash: each of the two records claims to come after the other. */
  lemma MetadataAndFooterClash()
    ensures exists a: Sbuf, b: Sbuf :: SbufPathCmp(a, b) == 1 && SbufPathCmp(b, a) == 1
  {
    var st := Stat(false, 0, 0, 0);
    var a := Sbuf(CMD_METADATA, "/f", None, None, "", st, None);
    var b := a.(cmd := CMD_VSS_T);
    PathCmpAntisymmetric("/f", "/f");
    assert SbufPathCmp(a, b) == 1 && SbufPathCmp(b, a) == 1;
  }

  // ----- Sorted lists -----

  ghost predicate Sorted(s: seq<Sbuf>) {
    forall i, j :: 0 <= i < j < |s| ==> Before(KeyOf(s[i]), KeyOf(s[j]))
  }

  ghost function Keys(s: seq<Sbuf>): set<Key> { set i | 0 <= i < |s| :: KeyOf(s[i]) }

  ghost predicate AllBefore(s: seq<Sbuf>, k: Key) {
    forall i :: 0 <= i < |s| ==> Before(KeyOf(s[i]), k)
  }

  /** A sorted list is determined by the records in it. */
  lemma {:induction false} SortedUnique(s: seq<Sbuf>, t: seq<Sbuf>)
    requires Sorted(s) && Sorted(t)
    requires forall e :: e in s <==> e in t
    ensures s == t
  {
    assert s != [] ==> s[0] in s;
    assert t != [] ==> t[0] in t;
    if s != [] && t != [] {
      HeadIsLeast(s, t);
      HeadIsLeast(t, s);
      BeforeTotal(KeyOf(s[0]), KeyOf(t[0]));
      assert s[0] in t && t[0] in s;
      assert s[0] == t[0];
      forall e ensures e in s[1..] <==> e in t[1..] {
        BeforeTotal(KeyOf(s[0]), KeyOf(s[0]));
        assert e in s <==> e == s[0] || e in s[1..];
        assert e in t <==> e == t[0] || e in t[1..];
        assert s[0] !in s[1..] && t[0] !in t[1..];
      }
      SortedUnique(s[1..], t[1..]);
      assert s == [s[0]] + s[1..] && t == [t[0]] + t[1..];
    }
  }

  lemma HeadIsLeast(s: seq<Sbuf>, t: seq<Sbuf>)
    requires Sorted(s) && |s| > 0 && |t| > 0
    requires forall e :: e in t ==> e in s
    ensures t[0] == s[0] || Before(KeyOf(s[0]), KeyOf(t[0]))
  {
    assert t[0] in s;
    var i :| 0 <= i < |s| && s[i] == t[0];
  }
}
