/** Getting one file back: `restore_file` (src/restore_server.c), up the backups to
    the first that has the data, then down applying the reverse deltas. */
module RestoreFile {
  import opened Wrappers
  import opened Librsync
  import opened Store

  datatype Restored = Sent(got: Got) | NotFound | Error | Killed

  /** The first backup from `i` on that has the file's data, or `|vs|`. */
  function Found(vs: seq<Version>, i: nat, dp: string): (x: nat)
    requires i <= |vs|
    ensures i <= x <= |vs|
    decreases |vs| - i
  {
    if i == |vs| || dp in vs[i].data then i else Found(vs, i + 1, dp)
  }

  /** How many reverse deltas lie in the backups from `i` up to `x`. */
  function Deltas(vs: seq<Version>, i: nat, x: nat, dp: string): nat
    requires i <= x <= |vs|
    decreases x - i
  {
    if i == x then 0 else (if dp in vs[i].delta then 1 else 0) + Deltas(vs, i + 1, x, dp)
  }

  lemma {:induction false} FoundRestore(lib: Codec, vs: seq<Version>, i: nat, dp: string, gz: bool)
    requires i <= |vs|
    ensures var x := Found(vs, i, dp);
            && (x == |vs| ==> Restore(lib, vs, i, dp, gz) == None)
            && (x < |vs| ==> dp in vs[x].data && Restore(lib, vs, x, dp, gz) == Some(Raw(vs[x].data[dp])))
            && forall k :: i <= k < x ==> dp !in vs[k].data
    decreases |vs| - i
  {
    if i < |vs| && dp !in vs[i].data { FoundRestore(lib, vs, i + 1, dp, gz); }
  }

  /** A delta that does not apply is fatal to everything below it. */
  lemma {:induction false} RestoreFails(lib: Codec, vs: seq<Version>, i: nat, x: nat, dp: string, gz: bool)
    requires i <= x <= |vs| && Restore(lib, vs, x, dp, gz) == None
    requires forall k :: i <= k < x ==> dp !in vs[k].data
    ensures Restore(lib, vs, i, dp, gz) == None
    decreases x - i
  {
    if i < x { RestoreFails(lib, vs, i + 1, x, dp, gz); }
  }

  /** Without deltas it does not matter what the record says of compression. */
  lemma {:induction false} NoDeltasNoFlag(lib: Codec, vs: seq<Version>, i: nat, dp: string, gz: bool)
    requires i <= |vs| && Deltas(vs, i, Found(vs, i, dp), dp) == 0
    ensures Restore(lib, vs, i, dp, gz) == Restore(lib, vs, i, dp, !gz)
    decreases |vs| - i
  {
    if i < |vs| && dp !in vs[i].data { NoDeltasNoFlag(lib, vs, i + 1, dp, gz); }
  }

  lemma NoDeltasYet(vs: seq<Version>, x: nat, dp: string)
    requires x <= |vs|
    ensures Deltas(vs, x, x, dp) == 0
  {
  }

  lemma OneBackupDown(lib: Codec, vs: seq<Version>, x: nat, found: nat, dp: string, gz: bool, got: Got)
    requires x < found < |vs| && dp !in vs[x].data && Restore(lib, vs, x + 1, dp, gz) == Some(got)
    ensures Restore(lib, vs, x, dp, gz) ==
            if dp in vs[x].delta then TurnedBack(lib, got, vs[x].delta[dp], gz) else Some(got)
    ensures Deltas(vs, x, found, dp) == (if dp in vs[x].delta then 1 else 0) + Deltas(vs, x + 1, found, dp)
  {
  }

  lemma DeltasStep(vs: seq<Version>, x: nat, found: nat, dp: string)
    requires x < found <= |vs|
    ensures Deltas(vs, x, found, dp) == (if dp in vs[x].delta then 1 else 0) + Deltas(vs, x + 1, found, dp)
  {
  }

  lemma {:induction false} DeltasSplit(vs: seq<Version>, i: nat, x: nat, f: nat, dp: string)
    requires i <= x <= f <= |vs|
    ensures Deltas(vs, i, f, dp) == Deltas(vs, i, x, dp) + Deltas(vs, x, f, dp)
    decreases x - i
  {
    if i < x { DeltasSplit(vs, i + 1, x, f, dp); }
  }

  datatype Place = Archive | Tmp1 | Tmp2

  /** What `tmp1` is: an uncompressed file of the archive is linked to it. */
  datatype Temp = Nothing | Own(content: Bytes) | LinkTo(x: nat, dp: string)

  /** The archive with one file of one backup's data written over. */
  function WithData(vs: seq<Version>, x: nat, dp: string, content: Bytes): seq<Version>
    requires x < |vs|
  {
    vs[x := vs[x].(data := vs[x].data[dp := content])]
  }

  lemma WithDataTwice(vs: seq<Version>, x: nat, dp: string, a: Bytes, b: Bytes)
    requires x < |vs|
    ensures WithData(WithData(vs, x, dp, a), x, dp, b) == WithData(vs, x, dp, b)
  {
    assert vs[x].data[dp := a][dp := b] == vs[x].data[dp := b];
  }

  /** What is written over where another file has its data changes nothing for it. */
  lemma {:induction false} StaysFound(vs: seq<Version>, i: nat, dp: string, x: nat, q: string, content: Bytes)
    requires i <= |vs| && x < |vs| && q in vs[x].data
    ensures var vs' := WithData(vs, x, q, content);
            Found(vs', i, dp) == Found(vs, i, dp) &&
            Deltas(vs', i, Found(vs, i, dp), dp) == Deltas(vs, i, Found(vs, i, dp), dp)
    decreases |vs| - i
  {
    if i < |vs| && dp !in vs[i].data { StaysFound(vs, i + 1, dp, x, q, content); }
  }

  /** The two temporary files of a restore, which stay from file to file, and the
      archive. */
  class Restorer {
    const lib: Codec
    var vs: seq<Version>
    var tmp1: Temp
    var tmp2: Option<Bytes>
    ghost var spoilt: set<(nat, string)>    // files of the archive written over through `tmp1`

    ghost predicate Valid()
      reads this
    {
      tmp1.LinkTo? ==> tmp1.x < |vs| && tmp1.dp in vs[tmp1.x].data
    }

    constructor (lib: Codec, vs: seq<Version>)
      ensures Valid() && this.lib == lib && this.vs == vs && tmp1 == Nothing && tmp2 == None && spoilt == {}
    {
      this.lib, this.vs, tmp1, tmp2, spoilt := lib, vs, Nothing, None, {};
    }

    function At(p: Place, found: nat, dp: string): Option<Got>
      requires Valid() && found < |vs| && dp in vs[found].data
      reads this
    {
      match p
      case Archive => Some(Raw(vs[found].data[dp]))
      case Tmp1 => (match tmp1
                    case Nothing => None
                    case Own(content) => Some(Plain(content))
                    case LinkTo(x, q) => Some(Plain(vs[x].data[q])))
      case Tmp2 => if tmp2.Some? then Some(Plain(tmp2.value)) else None
    }

    /** An uncompressed file cannot be linked over a `tmp1` left from before. */
    predicate InTheWay(compressed: bool)
      reads this
    {
      !compressed && tmp1 != Nothing
    }

    /** A compressed file is inflated over what `tmp1` is a link to. */
    predicate WritesThrough(compressed: bool)
      reads this
    {
      compressed && tmp1.LinkTo?
    }

    /** What would be written over is the file that is read. */
    predicate OwnFileSpoilt(i: nat, dp: string, compressed: bool)
      requires i <= |vs|
      reads this
    {
      compressed && tmp1 == LinkTo(Found(vs, i, dp), dp)
    }

    /** `open_file(infpath, "wb")` and what is written then. */
    method WriteTmp1(content: Bytes)
      requires Valid()
      modifies this
      ensures Valid() && tmp2 == old(tmp2)
      ensures if old(tmp1).LinkTo? then
                && tmp1 == old(tmp1) && vs == WithData(old(vs), tmp1.x, tmp1.dp, content)
                && spoilt == old(spoilt) + {(tmp1.x, tmp1.dp)}
              else tmp1 == Own(content) && vs == old(vs) && spoilt == old(spoilt)
    {
      match tmp1
      case LinkTo(x, q) =>
        vs := WithData(vs, x, q, content);
        spoilt := spoilt + {(x, q)};
      case _ => tmp1 := Own(content);
    }

    /** `inflate_or_link_oldfile` of the restore, into `tmp1`. */
    method InflateOrLinkOldFile(found: nat, dp: string, compressed: bool, mayCrash: bool)
      returns (ok: bool, killed: bool)
      requires Valid() && found < |vs| && dp in vs[found].data
      modifies this
      ensures Valid() && tmp2 == old(tmp2) && spoilt == old(spoilt) + Through(old(tmp1), compressed)
      ensures killed ==> mayCrash && !ok
      ensures if old(WritesThrough(compressed)) then OneWrittenOver(old(vs), vs, old(tmp1)) && tmp1 == old(tmp1)
              else vs == old(vs)
      ensures found < |vs| && dp in vs[found].data
      ensures (!killed && (!old(WritesThrough(compressed)) || old(tmp1) != LinkTo(found, dp)) ==>
                 && (ok <==> !old(InTheWay(compressed)) && lib.Inflated(compressed, old(vs)[found].data[dp]).Some?)
                 && (ok ==>
                       var inflated := lib.Inflated(compressed, old(vs)[found].data[dp]).value;
                       tmp1 != Nothing && At(Tmp1, found, dp) == Some(Plain(inflated))))
      ensures tmp1.LinkTo? ==> tmp1 == old(tmp1) || (ok && !compressed && tmp1 == LinkTo(found, dp))
      ensures ok && !compressed ==> tmp1 == LinkTo(found, dp)
    {
      if compressed {
        var partial: Bytes := *;
        ghost var before := vs;
        WriteTmp1(partial);
        if mayCrash { if * { return false, true; } }
        var inflated := lib.Inflated(true, vs[found].data[dp]);
        if inflated.None? { return false, false; }
        WriteTmp1(inflated.value);
        if tmp1.LinkTo? { WithDataTwice(before, tmp1.x, tmp1.dp, partial, inflated.value); }
      } else {
        if tmp1 != Nothing { return false, false; }
        tmp1 := LinkTo(found, dp);
      }
      return true, false;
    }

    /** Two loops, one recursion: what is sent is what `Restore` says, unless a first
        delta meets a leftover in the way or is written through it to the file itself.
        An even number of deltas leaves its result in `tmp1`, an odd one in `tmp2`.
        Killed or failing at its first patch an uncompressed file leaves a link. */
    method RestoreFile(i: nat, dp: string, compressed: bool, mayCrash: bool) returns (r: Restored)
      requires Valid() && i < |vs|
      modifies this
      ensures Valid() && (r.Killed? ==> mayCrash)
      ensures !r.Killed? ==> (r.NotFound? <==> Found(old(vs), i, dp) == |old(vs)|)
      ensures var n := DeltasOf(old(vs), i, dp);
              // The archive is written over exactly if a first delta meets a link.
              && (if n == 0 then vs == old(vs) && spoilt == old(spoilt)
                  else WrittenSo(old(vs), vs, old(spoilt), spoilt, old(tmp1), compressed))
              && (!r.Killed? && !(n > 0 && old(OwnFileSpoilt(i, dp, compressed))) ==>
                    && (r.Sent? <==> Restore(lib, old(vs), i, dp, compressed).Some? &&
                                     !(n > 0 && old(InTheWay(compressed))))
                    && (r.Sent? ==> Some(r.got) == Restore(lib, old(vs), i, dp, compressed)))
              && (tmp1.LinkTo? ==>
                    (tmp1 == old(tmp1) && (n > 0 ==> !r.Sent?)) ||
                    (n > 0 && !compressed && !r.Sent? && tmp1 == LinkTo(Found(old(vs), i, dp), dp)))
              && (n == 0 ==> !r.Error? && !r.Killed? && tmp1 == old(tmp1) && tmp2 == old(tmp2))
              && (n > 0 ==> !r.NotFound?) && (n > 0 && r.Sent? ==> LeavesResult(n, r.got))
    {
      var x := FindData(i, dp);
      FoundRestore(lib, vs, i, dp, compressed);
      NoDeltasYet(vs, x, dp);
      if x == |vs| { return NotFound; }
      r := RestoreFound(i, x, dp, compressed, mayCrash);
    }
    /** What a place holds while deltas are applied. */
    ghost predicate AfterPatches(best: Place, tmp: Place, patches: nat)
      reads this
    {
      if patches % 2 == 0 then best == Tmp1 && tmp == Tmp2 && tmp1.Own? && tmp2 == None
      else best == Tmp2 && tmp == Tmp1 && tmp1 == Nothing && tmp2.Some?
    }

    /** One delta, from `best` into `tmp`; what was patched is removed. */
    method ApplyDelta(best: Place, tmp: Place, delta: Bytes, compressed: bool, found: nat, dp: string,
                      patches: nat, mayCrash: bool)
      returns (r: Restored, ghost basis: Bytes)
      requires Valid() && found < |vs| && dp in vs[found].data && best != Archive && best != tmp && tmp != Archive
      requires At(best, found, dp).Some? && (tmp == Tmp1 ==> !tmp1.LinkTo?)
      requires (patches % 2 == 0) == (best == Tmp1)
      modifies this`tmp1, this`tmp2
      ensures Valid() && (r.Killed? ==> mayCrash) && !r.NotFound? && basis == old(At(best, found, dp)).value.content
      ensures var patched := lib.patch(basis, lib.ReadAs(compressed, delta));
              && (r.Sent? ==> patched.Some? && r.got == Plain(patched.value) && AfterPatches(tmp, best, patches + 1) &&
                              At(tmp, found, dp) == Some(r.got))
              && (r.Error? ==> patched.None?)
      ensures tmp1.LinkTo? ==> tmp1 == old(tmp1) && !r.Sent?
    {
      basis := At(best, found, dp).value.content;
      var patched := lib.patch(At(best, found, dp).value.content, lib.ReadAs(compressed, delta));
      var partial: Bytes := *;
      if tmp == Tmp1 { tmp1 := Own(partial); } else { tmp2 := Some(partial); }
      if mayCrash { if * { return Killed, basis; } }
      if patched.None? { return Error, basis; }
      if tmp == Tmp1 { tmp1 := Own(patched.value); } else { tmp2 := Some(patched.value); }
      if mayCrash { if * { return Killed, basis; } }
      if best == Tmp1 { tmp1 := Nothing; } else { tmp2 := None; }
      r := Sent(Plain(patched.value));
    }

    /** One delta, the first time with the data linked or inflated into `tmp1` before. */
    method TurnBack(best: Place, tmp: Place, delta: Bytes, compressed: bool, found: nat, dp: string,
                    patches: nat, mayCrash: bool)
      returns (r: Restored, best': Place, tmp': Place)
      requires Valid() && found < |vs| && dp in vs[found].data && At(best, found, dp).Some?
      requires if patches == 0 then best == Archive else AfterPatches(best, tmp, patches)
      modifies this
      ensures Valid() && (r.Killed? ==> mayCrash) && !r.NotFound? && found < |vs| && dp in vs[found].data
      ensures if patches == 0 then WrittenSo(old(vs), vs, old(spoilt), spoilt, old(tmp1), compressed)
              else vs == old(vs) && spoilt == old(spoilt)
      ensures (!(patches == 0 && compressed && old(tmp1) == LinkTo(found, dp)) ==>
                 var turned := TurnedBack(lib, old(At(best, found, dp)).value, delta, compressed);
                 && (r.Sent? ==> turned == Some(r.got) && !(patches == 0 && old(InTheWay(compressed))))
                 && (r.Error? ==> turned == None || (patches == 0 && old(InTheWay(compressed)))))
      ensures r.Sent? ==> r.got.Plain? && AfterPatches(best', tmp', patches + 1) && At(best', found, dp) == Some(r.got)
      ensures (tmp1.LinkTo? ==>
                 !r.Sent? && (tmp1 == old(tmp1) || (patches == 0 && !compressed && tmp1 == LinkTo(found, dp))))
    {
      best', tmp' := best, tmp;
      if patches == 0 {
        var ok, killed := InflateOrLinkOldFile(found, dp, compressed, mayCrash);
        if !ok { return if killed then Killed else Error, best', tmp'; }
        if mayCrash { if * { return Killed, best', tmp'; } }
        best', tmp' := Tmp1, Tmp2;
      }
      ghost var basis;
      r, basis := ApplyDelta(best', tmp', delta, compressed, found, dp, patches, mayCrash);
      best', tmp' := tmp', best';
    }

    /** From the data down, applying the deltas. */
    method RestoreFound(i: nat, found: nat, dp: string, compressed: bool, mayCrash: bool) returns (r: Restored)
      requires Valid() && i <= found < |vs| && found == Found(vs, i, dp) && dp in vs[found].data
      modifies this
      ensures Valid() && (r.Killed? ==> mayCrash) && !r.NotFound?
      ensures var n := Deltas(old(vs), i, found, dp);
              && (if n == 0 then vs == old(vs) && spoilt == old(spoilt)
                  else WrittenSo(old(vs), vs, old(spoilt), spoilt, old(tmp1), compressed))
              && (!r.Killed? && !(n > 0 && old(OwnFileSpoilt(i, dp, compressed))) ==>
                    && (r.Sent? <==> Restore(lib, old(vs), i, dp, compressed).Some? &&
                                     !(n > 0 && old(InTheWay(compressed))))
                    && (r.Sent? ==> Some(r.got) == Restore(lib, old(vs), i, dp, compressed)))
              && (tmp1.LinkTo? ==>
                    (tmp1 == old(tmp1) && (n > 0 ==> !r.Sent?)) ||
                    (n > 0 && !compressed && !r.Sent? && tmp1 == LinkTo(found, dp)))
              && (n == 0 ==> r.Sent? && r.got.Raw? && tmp1 == old(tmp1) && tmp2 == old(tmp2))
              && (n > 0 && r.Sent? ==> LeavesResult(n, r.got))
    {
      FoundRestore(lib, vs, i, dp, compressed);
      NoDeltasYet(vs, found, dp);
      hide Found, Restore, Deltas, WrittenSo, TurnedBack;
      ghost var vs0, was, books := vs, tmp1, spoilt;
      ghost var dirty := OwnFileSpoilt(i, dp, compressed);
      var x, best, tmp, patches := found, Archive, Tmp1, 0;
      while x > i
        invariant i <= x <= found < |vs| && |vs| == |vs0| && dp in vs[found].data && Valid()
        invariant patches == Deltas(vs0, x, found, dp)
        invariant (patches == 0 ==>
                     vs == vs0 && spoilt == books && tmp1 == was && tmp2 == old(tmp2) && best == Archive)
        invariant patches > 0 ==> !old(InTheWay(compressed)) && AfterPatches(best, tmp, patches)
        invariant patches > 0 ==> WrittenSo(vs0, vs, books, spoilt, was, compressed)
        invariant forall k :: 0 <= k < |vs| ==> vs[k].delta == vs0[k].delta
        invariant At(best, found, dp).Some? && (patches > 0 ==> At(best, found, dp).value.Plain?)
        invariant !(patches > 0 && dirty) ==> At(best, found, dp) == Restore(lib, vs0, x, dp, compressed)
      {
        x := x - 1;
        if !(patches > 0 && dirty) {
          OneBackupDown(lib, vs0, x, found, dp, compressed, At(best, found, dp).value);
        }
        DeltasStep(vs0, x, found, dp);
        DeltasSplit(vs0, i, x, found, dp);
        if dp in vs[x].delta {
          r, best, tmp := TurnBack(best, tmp, vs[x].delta[dp], compressed, found, dp, patches, mayCrash);
          if patches == 0 { DeltasStay(vs0, vs, books, spoilt, was, compressed); }
          if !r.Sent? {
            if r.Error? && !dirty && !(patches == 0 && old(InTheWay(compressed))) {
              RestoreFails(lib, vs0, i, x, dp, compressed);
            }
            return;
          }
          patches := patches + 1;
        }
      }
      r := Sent(At(best, found, dp).value);
    }

    /** The last result is left in one of the two. */
    ghost predicate LeavesResult(n: nat, got: Got)
      reads this
    {
      && got.Plain?
      && if n % 2 == 0 then tmp1 == Own(got.content) && tmp2 == None
         else tmp1 == Nothing && tmp2 == Some(got.content)
    }

    /** The end of `do_restore_server`. */
    method Unlink()
      requires Valid()
      modifies this`tmp1, this`tmp2
      ensures Valid() && tmp1 == Nothing && tmp2 == None
    {
      tmp1, tmp2 := Nothing, None;
    }

    /** Up the backups to the first that has the file's data. */
    method FindData(i: nat, dp: string) returns (x: nat)
      requires i < |vs|
      ensures x == Found(vs, i, dp)
    {
      x := i;
      while x < |vs| && dp !in vs[x].data
        invariant i <= x <= |vs| && Found(vs, i, dp) == Found(vs, x, dp)
      {
        x := x + 1;
      }
    }
  }

  /** What a first delta does to the archive: nothing, unless `tmp1` is a link that it is
      inflated through. */
  ghost predicate WrittenSo(vs: seq<Version>, vs': seq<Version>, spoilt: set<(nat, string)>,
                            spoilt': set<(nat, string)>, tmp1: Temp, compressed: bool)
  {
    spoilt' == spoilt + Through(tmp1, compressed) &&
    if compressed && tmp1.LinkTo? then OneWrittenOver(vs, vs', tmp1) else vs' == vs
  }

  lemma DeltasStay(vs: seq<Version>, vs': seq<Version>, spoilt: set<(nat, string)>, spoilt': set<(nat, string)>,
                   tmp1: Temp, compressed: bool)
    requires WrittenSo(vs, vs', spoilt, spoilt', tmp1, compressed)
    ensures |vs'| == |vs| && forall k :: 0 <= k < |vs| ==> vs'[k].delta == vs[k].delta
  {
  }

  /** How many deltas there are to apply to a file's data. */
  function DeltasOf(vs: seq<Version>, i: nat, dp: string): nat
    requires i <= |vs|
  {
    var x := Found(vs, i, dp);
    if x == |vs| then 0 else Deltas(vs, i, x, dp)
  }

  function Through(tmp1: Temp, compressed: bool): set<(nat, string)> {
    if compressed && tmp1.LinkTo? then {(tmp1.x, tmp1.dp)} else {}
  }

  /** But for the one file that `tmp1` was a link to the archive is what it was. */
  ghost predicate OneWrittenOver(vs: seq<Version>, vs': seq<Version>, tmp1: Temp) {
    tmp1.LinkTo? && tmp1.x < |vs| && exists content :: vs' == WithData(vs, tmp1.x, tmp1.dp, content)
  }

  // ----- One restore after the other -----

  /** A file that is selected, and what its record says of compression. */
  datatype Selected = Selected(dp: string, compressed: bool)

  /** The first of the files that has a delta to apply is compressed. */
  predicate FirstDeltaInflates(vs: seq<Version>, i: nat, files: seq<Selected>)
    requires i <= |vs|
  {
    files != [] &&
    if DeltasOf(vs, i, files[0].dp) > 0 then files[0].compressed else FirstDeltaInflates(vs, i, files[1..])
  }

  /** `do_restore_server`: file after file until one fails; then, unless it is killed,
      both temporary files go. A file of the archive is written over if and only if an
      earlier restore was killed while `tmp1` was a link to it, and the first delta of
      this one is compressed. */
  method RestoreAll(rs: Restorer, i: nat, files: seq<Selected>, mayCrash: bool) returns (r: Restored)
    requires rs.Valid() && i < |rs.vs|
    modifies rs
    ensures rs.Valid() && (r.Killed? ==> mayCrash)
    ensures !r.Killed? ==> rs.tmp1 == Nothing && rs.tmp2 == None
    ensures WrittenSo(old(rs.vs), rs.vs, old(rs.spoilt), rs.spoilt, old(rs.tmp1),
                      FirstDeltaInflates(old(rs.vs), i, files))
  {
    hide Found, Deltas, DeltasOf, OneWrittenOver, Restore;
    ghost var vs0, was, books := rs.vs, rs.tmp1, rs.spoilt;
    ghost var inflates, met := FirstDeltaInflates(rs.vs, i, files), false;
    r := NotFound;
    var n := 0;
    while n < |files| && (r.Sent? || r.NotFound?)
      invariant n <= |files| && rs.Valid() && i < |vs0| == |rs.vs| && (r.Killed? ==> mayCrash)
      invariant (!met ==>
                   && rs.vs == vs0 && rs.spoilt == books && rs.tmp1 == was && !r.Killed? && !r.Error?
                   && inflates == FirstDeltaInflates(vs0, i, files[n..]))
      invariant met ==> WrittenSo(vs0, rs.vs, books, rs.spoilt, was, inflates)
      invariant met && (r.Sent? || r.NotFound?) ==> !rs.tmp1.LinkTo?
    {
      assert files[n..][0] == files[n] && files[n..][1..] == files[n + 1..];
      met := met || DeltasOf(vs0, i, files[n].dp) > 0;
      ghost var vs1, books1, tmp1 := rs.vs, rs.spoilt, rs.tmp1;
      r := rs.RestoreFile(i, files[n].dp, files[n].compressed, mayCrash);
      SameLength(vs1, rs.vs, books1, rs.spoilt, tmp1, files[n].compressed, DeltasOf(vs1, i, files[n].dp) > 0);
      n := n + 1;
    }
    if !r.Killed? { rs.Unlink(); }
  }

  lemma SameLength(vs: seq<Version>, vs': seq<Version>, spoilt: set<(nat, string)>, spoilt': set<(nat, string)>,
                   tmp1: Temp, compressed: bool, met: bool)
    ensures met && WrittenSo(vs, vs', spoilt, spoilt', tmp1, compressed) ==> |vs'| == |vs|
  {
    if WrittenSo(vs, vs', spoilt, spoilt', tmp1, compressed) {
      DeltasStay(vs, vs', spoilt, spoilt', tmp1, compressed);
    }
  }

  /** The failing input: a restore of the uncompressed `a` is killed once it is linked
      to `tmp1`, and the next restore begins with the compressed `b`. */
  method KilledRestoreSpoils(rs: Restorer, next: Version, last: Version)
    requires rs.vs == [next, last] && rs.tmp1 == Nothing && rs.spoilt == {}
    requires next.data == map[] && "b" in next.delta && "a" in last.data && "b" in last.data
    modifies rs
    ensures rs.spoilt == {(1, "a")}
  {
    var ok, killed := rs.InflateOrLinkOldFile(1, "a", false, false);
    assert Found(rs.vs, 1, "b") == 1 && Found(rs.vs, 0, "b") == 1 && Deltas(rs.vs, 1, 1, "b") == 0;
    assert DeltasOf(rs.vs, 0, "b") == 1 && FirstDeltaInflates(rs.vs, 0, [Selected("b", true)]);
    var r := RestoreAll(rs, 0, [Selected("b", true)], false);
  }

  /** A backup of a good store gets every file back, if it is compressed or the
      file before it left nothing in the way, and exactly then; but for a file that is
      itself what `tmp1` was left a link to. */
  method RestoreFromGoodStore(rs: Restorer, i: nat, dp: string, compressed: bool)
    returns (r: Restored)
    requires rs.Valid() && StoreOk(rs.lib, rs.vs) && i < |rs.vs| && dp in rs.vs[i].held
    requires (compressed <==> dp in rs.vs[i].gz) || DeltasOf(rs.vs, i, dp) == 0
    modifies rs
    ensures (!(DeltasOf(old(rs.vs), i, dp) > 0 && old(rs.OwnFileSpoilt(i, dp, compressed))) ==>
               (DeltasOf(old(rs.vs), i, dp) == 0 || !old(rs.InTheWay(compressed)) <==>
                  r.Sent? && Gives(rs.lib, r.got, old(rs.vs)[i].held[dp], dp in old(rs.vs)[i].gz)))
  {
    RestoreExact(rs.lib, rs.vs, i, dp);
    FoundRestore(rs.lib, rs.vs, i, dp, dp in rs.vs[i].gz);
    if !(compressed <==> dp in rs.vs[i].gz) { NoDeltasNoFlag(rs.lib, rs.vs, i, dp, compressed); }
    r := rs.RestoreFile(i, dp, compressed, false);
  }

  /** The failing input: two files, both changed twice and stored uncompressed. The
      first leaves its result in `tmp1`, and the second cannot be restored. */
  method LeftoverInTheWay(lib: Codec, v: Version, next: Version, last: Version) returns (a: Restored, b: Restored)
    requires lib.Valid()
    requires v.data == map[] && v.gz == {} && v.delta == map["a" := lib.delta("2", "1"), "b" := lib.delta("5", "4")]
    requires next.data == map[] && next.delta == map["a" := lib.delta("3", "2"), "b" := lib.delta("6", "5")]
    requires last.data == map["a" := "3", "b" := "6"]
    ensures a == Sent(Plain("1")) && b == Error && Restore(lib, [v, next, last], 0, "b", false) == Some(Plain("4"))
  {
    var vs := [v, next, last];
    var rs := new Restorer(lib, vs);
    TwoDeltas(lib, vs, "a", "1", "2", "3");
    TwoDeltas(lib, vs, "b", "4", "5", "6");
    a := rs.RestoreFile(0, "a", false, false);
    b := rs.RestoreFile(0, "b", false, false);
  }

  lemma TwoDeltas(lib: Codec, vs: seq<Version>, dp: string, x: Bytes, y: Bytes, z: Bytes)
    requires lib.Valid() && |vs| == 3 && dp !in vs[0].data && dp !in vs[1].data
    requires dp in vs[2].data && vs[2].data[dp] == z
    requires dp in vs[0].delta && vs[0].delta[dp] == lib.delta(y, x)
    requires dp in vs[1].delta && vs[1].delta[dp] == lib.delta(z, y)
    ensures Found(vs, 0, dp) == 2 && Deltas(vs, 0, 2, dp) == 2 && Restore(lib, vs, 0, dp, false) == Some(Plain(x))
  {
    assert Found(vs, 1, dp) == 2 && Deltas(vs, 1, 2, dp) == 1;
    assert Restore(lib, vs, 2, dp, false) == Some(Raw(z));
    assert Restore(lib, vs, 1, dp, false) == Some(Plain(y));
  }
}
