/** Taking the files that could not be patched out of the new manifest:
    `maybe_delete_files_from_manifest` (src/backup_phase4_server.c). */
module Deletions {
  import opened Wrappers
  import opened Records
  import PathOrder

  /** The records of `m` whose keys are not in `ks`, in their order. */
  function Without(m: seq<Sbuf>, ks: set<Key>): seq<Sbuf> {
    if m == [] then []
    else
      var last := m[|m| - 1];
      Without(m[..|m| - 1], ks) + if KeyOf(last) in ks then [] else [last]
  }

  /** `log[j]` is nowhere below an earlier entry of the log. */
  predicate IsPeak(log: seq<Sbuf>, j: nat)
    requires j < |log|
  {
    forall i :: 0 <= i < j ==> !Before(KeyOf(log[j]), KeyOf(log[i]))
  }

  ghost function Peaks(log: seq<Sbuf>): set<Key> {
    set j | 0 <= j < |log| && IsPeak(log, j) :: KeyOf(log[j])
  }

  /** The two-way merge. Of a log in any order it takes out exactly the peaks. */
  method MaybeDeleteFilesFromManifest(p: Platform, manifest: seq<Sbuf>, deletions: Option<seq<Sbuf>>)
    returns (out: seq<Sbuf>)
    requires Sorted(manifest) && AllSent(p, manifest)
    requires deletions.Some? ==> AllSent(p, deletions.value)
    ensures deletions.None? ==> out == manifest
    ensures deletions.Some? ==> out == Without(manifest, Peaks(deletions.value))
  {
    if deletions.None? { return manifest; }
    var log := deletions.value;
    out := [];
    var omzp, dfp := true, true;     // both files are open
    var mb, db := false, false;      // a record of each is held: manifest[m], log[d]
    var m, d := 0, 0;                // records of each that are done with
    while omzp || dfp
      invariant mb ==> omzp && m < |manifest|
      invariant db ==> dfp && d < |log|
      invariant !omzp ==> m == |manifest|
      invariant !dfp ==> d == |log|
      invariant Merged(manifest, log, m, d, out)
      decreases |manifest| - m + |log| - d, omzp, dfp
    {
      if dfp && !db {
        if d == |log| { dfp := false; } else { db := true; }
      }
      if omzp && !mb {
        if m == |manifest| { omzp := false; } else { mb := true; }
      }
      if mb && !db {
        KeepStep(manifest, log, m, d, out);
        out := out + [manifest[m]];
        mb, m := false, m + 1;
      } else if !mb && db {
        db, d := false, d + 1;
      } else if !mb && !db {
        continue;
      } else {
        SbufPathCmpIsKeyOrder(p, manifest[m], log[d]);
        var pcmp := SbufPathCmp(manifest[m], log[d]);
        if pcmp == 0 {
          DropStep(manifest, log, m, d, out);
          mb, m := false, m + 1;
          db, d := false, d + 1;
        } else if pcmp < 0 {
          KeepStep(manifest, log, m, d, out);
          out := out + [manifest[m]];
          mb, m := false, m + 1;
        } else {
          DiscardStep(manifest, log, m, d, out);
          db, d := false, d + 1;
        }
      }
    }
    assert manifest[..|manifest|] == manifest;
  }

  /** The merge has used up `k` manifest records and `d` deletions. */
  ghost predicate Merged(m: seq<Sbuf>, log: seq<Sbuf>, k: nat, d: nat, out: seq<Sbuf>) {
    && k <= |m| && d <= |log|
    && out == Without(m[..k], Peaks(log))
    && forall i, x :: 0 <= i < d && k <= x < |m| ==> Before(KeyOf(log[i]), KeyOf(m[x]))
  }

  /** A manifest record below the next deletion is not a peak of the log. */
  lemma KeepStep(m: seq<Sbuf>, log: seq<Sbuf>, k: nat, d: nat, out: seq<Sbuf>)
    requires k < |m| && Merged(m, log, k, d, out)
    requires d < |log| ==> Before(KeyOf(m[k]), KeyOf(log[d]))
    ensures Merged(m, log, k + 1, d, out + [m[k]])
  {
    hide Before;
    forall j | 0 <= j < |log| && IsPeak(log, j) ensures KeyOf(log[j]) != KeyOf(m[k]) {
      BeforeTotal(KeyOf(m[k]), KeyOf(m[k]));
      if j > d { assert !Before(KeyOf(log[j]), KeyOf(log[d])); }
    }
    assert KeyOf(m[k]) !in Peaks(log);
    hide IsPeak, Peaks;
    assert m[..k + 1][..k] == m[..k] && m[..k + 1][k] == m[k];
  }

  lemma DropStep(m: seq<Sbuf>, log: seq<Sbuf>, k: nat, d: nat, out: seq<Sbuf>)
    requires k < |m| && d < |log| && KeyOf(m[k]) == KeyOf(log[d])
    requires Sorted(m) && Merged(m, log, k, d, out)
    ensures Merged(m, log, k + 1, d + 1, out)
  {
    forall i | 0 <= i < d ensures !Before(KeyOf(log[d]), KeyOf(log[i])) {
      BeforeTotal(KeyOf(log[i]), KeyOf(m[k]));
    }
    assert IsPeak(log, d);
    assert m[..k + 1][..k] == m[..k];
  }

  lemma DiscardStep(m: seq<Sbuf>, log: seq<Sbuf>, k: nat, d: nat, out: seq<Sbuf>)
    requires k < |m| && d < |log| && Before(KeyOf(log[d]), KeyOf(m[k]))
    requires Sorted(m) && Merged(m, log, k, d, out)
    ensures Merged(m, log, k, d + 1, out)
  {
    forall x | k < x < |m| ensures Before(KeyOf(log[d]), KeyOf(m[x])) {
      BeforeTransitive(KeyOf(log[d]), KeyOf(m[k]), KeyOf(m[x]));
    }
  }

  // ----- What the peaks mean for the log that a shuffle leaves -----

  lemma {:induction false} WithoutContents(m: seq<Sbuf>, ks: set<Key>)
    ensures forall e :: e in Without(m, ks) <==> e in m && KeyOf(e) !in ks
    ensures Sorted(m) ==> Sorted(Without(m, ks))
  {
    if m != [] {
      var m', last := m[..|m| - 1], m[|m| - 1];
      assert m == m' + [last];
      WithoutContents(m', ks);
      if Sorted(m) {
        var w := Without(m', ks);
        forall i | 0 <= i < |w| ensures Before(KeyOf(w[i]), KeyOf(last)) {
          assert w[i] in w;
          var k :| 0 <= k < |m'| && m'[k] == w[i];
        }
      }
    }
  }

  /** The new manifest is the old one less the logged files if and only if no
      logged file of the manifest is first logged after a later one. */
  lemma DeletionsExact(m: seq<Sbuf>, log: seq<Sbuf>)
    ensures Without(m, Peaks(log)) == Without(m, Keys(log)) <==>
            forall j :: 0 <= j < |log| && KeyOf(log[j]) in Keys(m) ==> KeyOf(log[j]) in Peaks(log)
  {
    WithoutContents(m, Peaks(log));
    WithoutContents(m, Keys(log));
    if forall j :: 0 <= j < |log| && KeyOf(log[j]) in Keys(m) ==> KeyOf(log[j]) in Peaks(log) {
      WithoutAgree(m, Peaks(log), Keys(log));
    } else {
      var j :| 0 <= j < |log| && KeyOf(log[j]) in Keys(m) && KeyOf(log[j]) !in Peaks(log);
      var i :| 0 <= i < |m| && KeyOf(m[i]) == KeyOf(log[j]);
      assert m[i] in Without(m, Peaks(log)) && m[i] !in Without(m, Keys(log));
    }
  }

  lemma {:induction false} WithoutAgree(m: seq<Sbuf>, ks: set<Key>, ls: set<Key>)
    requires forall i :: 0 <= i < |m| ==> (KeyOf(m[i]) in ks <==> KeyOf(m[i]) in ls)
    ensures Without(m, ks) == Without(m, ls)
  {
    if m != [] { WithoutAgree(m[..|m| - 1], ks, ls); }
  }

  /** A key seen for the first time is above everything logged before. */
  ghost predicate NewKeysRise(log: seq<Sbuf>) {
    forall j :: 0 <= j < |log| ==>
      (exists i :: 0 <= i < j && KeyOf(log[i]) == KeyOf(log[j])) ||
      (forall i :: 0 <= i < j ==> Before(KeyOf(log[i]), KeyOf(log[j])))
  }

  /** Such a log, as restarted shuffles write it, is deleted in full. */
  lemma RisingLogIsDeleted(m: seq<Sbuf>, log: seq<Sbuf>)
    requires NewKeysRise(log)
    ensures Without(m, Peaks(log)) == Without(m, Keys(log))
  {
    forall j | 0 <= j < |log| ensures KeyOf(log[j]) in Peaks(log) {
      RisingKeyIsPeak(log, j);
    }
    DeletionsExact(m, log);
  }

  lemma {:induction false} RisingKeyIsPeak(log: seq<Sbuf>, j: nat)
    requires NewKeysRise(log) && j < |log|
    ensures KeyOf(log[j]) in Peaks(log)
    decreases j
  {
    if i :| 0 <= i < j && KeyOf(log[i]) == KeyOf(log[j]) {
      RisingKeyIsPeak(log, i);
    } else {
      forall i | 0 <= i < j ensures !Before(KeyOf(log[j]), KeyOf(log[i])) {
        BeforeTotal(KeyOf(log[i]), KeyOf(log[j]));
      }
      assert IsPeak(log, j);
    }
  }

  /** Logged out of order, as when a retry fails on an earlier file than the
      first run did, "/a" stays in the manifest. */
  lemma OutOfOrderLogKeepsAFile()
    ensures exists m: seq<Sbuf>, log: seq<Sbuf> ::
              Sorted(m) && Keys(log) == Keys(m) && Without(m, Peaks(log)) != []
  {
    var st := Stat(false, 0, 0, 0);
    var a := Sbuf(CMD_FILE, "/a", None, Some("0000/0000/0000"), "", st, Some("0:"));
    var b := Sbuf(CMD_FILE, "/b", None, Some("0000/0000/0001"), "", st, Some("0:"));
    var m, log := [a, b], [b, a];
    PathOrder.LcpUnique("/a", "/b", 1);
    BeforeTotal(KeyOf(a), KeyOf(b));
    assert m[0] == a && m[1] == b && log[0] == b && log[1] == a;
    assert Before(KeyOf(a), KeyOf(b)) && Sorted(m);
    assert KeyOf(a) in Keys(m) && KeyOf(b) in Keys(m) && KeyOf(a) in Keys(log) && KeyOf(b) in Keys(log);
    assert Keys(log) == Keys(m);
    assert !IsPeak(log, 1) by { assert Before(KeyOf(log[1]), KeyOf(log[0])); }
    WithoutContents(m, Peaks(log));
    assert a in Without(m, Peaks(log));
  }
}
