/** Where new data goes: `start_to_receive_new_file` (src/backup_phase2_server.c). */
module DataPaths {
  import opened Wrappers
  import opened Records
  import opened Protocol
  import opened Jiggle
  import opened ShuffleRun
  import opened Framing
  import opened Dpth
  import opened WholeBackup

  /** The records that `treedata` puts under their own paths. */
  predicate TreeData(cmd: char) { cmd == CMD_FILE || cmd == CMD_ENC_FILE || cmd == CMD_EFS_FILE }

  /** `start_to_receive_new_file` names new data by the counter, or with
      `directory_tree` after the file; no number of the counter begins with a `t`,
      and none that is in use is given out. */
  ghost predicate NamedAsReceived(env: Env, tree: bool, was: Dir, p1: seq<Sbuf>) {
    && (forall e :: e in p1 && tree && TreeData(e.cmd) ==> env.newPath(e.cmd, e.path) == "t" + e.path)
    && (forall e :: e in p1 && !(tree && TreeData(e.cmd)) ==>
          var dp := env.newPath(e.cmd, e.path); dp != "" && dp[0] != 't' && dp !in was)
    && (forall e, f :: e in p1 && f in p1 && !(tree && TreeData(e.cmd)) && !(tree && TreeData(f.cmd)) ==>
          env.newPath(e.cmd, e.path) == env.newPath(f.cmd, f.path) ==> KeyOf(e) == KeyOf(f))
  }

  /** Data that lies under a tree name is the data of the file so named. */
  ghost predicate TreeNamed(m: seq<Sbuf>) {
    forall e :: e in m && e.datapth.Some? && e.datapth.value != "" && e.datapth.value[0] == 't' ==>
      e.datapth.value == "t" + e.path && SlotOf(e.cmd) == 1
  }

  /** So no data path is given to another file. */
  lemma NamesAreOwn(env: Env, tree: bool, was: Dir, cman: seq<Sbuf>, p1: seq<Sbuf>)
    requires NamedAsReceived(env, tree, was, p1) && TreeNamed(cman) && Covered(cman, was)
    ensures OwnPaths(env, cman, p1)
  {
    forall e, f | e in p1 && f in p1 && env.newPath(e.cmd, e.path) == env.newPath(f.cmd, f.path)
      ensures KeyOf(e) == KeyOf(f)
    {
      if tree && TreeData(e.cmd) && TreeData(f.cmd) {
        assert e.path == ("t" + e.path)[1..] == ("t" + f.path)[1..] == f.path;
      }
    }
    forall e, cb | e in p1 && cb in cman && cb.datapth == Some(env.newPath(e.cmd, e.path))
      ensures KeyOf(cb) == KeyOf(e)
    {
      assert tree && TreeData(e.cmd);
      assert e.path == ("t" + e.path)[1..] == ("t" + cb.path)[1..] == cb.path;
    }
  }

  /** And the new manifest keeps to that. */
  lemma StaysTreeNamed(w: Setting, content: Contents, tree: bool, m: seq<Sbuf>)
    requires w.Ok(content) && NamedAsReceived(w.env, tree, w.was, w.p1) && TreeNamed(w.cman)
    requires forall e :: e in m ==> w.Listed(e)
    ensures TreeNamed(m)
  {
    hide Setting.Ok, Setting.Listed;
    forall e | e in m && e.datapth.Some? && e.datapth.value != "" && e.datapth.value[0] == 't'
      ensures e.datapth.value == "t" + e.path && SlotOf(e.cmd) == 1
    {
      var s := ListedNames(w, content, e);
    }
  }

  /** The data lies under numbers in use, or under tree names. */
  ghost predicate Numbered(was: Dir, used: seq<Number>) {
    forall dp :: dp in was && dp != "" && dp[0] != 't' ==>
      exists u, gz :: u in used && u.Short() && dp == Path(u, gz)
  }

  /** The counter that `init_dpth` sets gives such names, each scanned record its own
      number, until it wraps. */
  lemma NumbersAreFresh(env: Env, tree: bool, was: Dir, p1: seq<Sbuf>, used: seq<Number>, d: Number, max: nat, k: nat,
                        place: Key -> nat, gz: char -> bool)
    requires Numbered(was, used) && IsHighest(used, d) && InRange(d, max) && max <= 0xFFFF
    requires !Wraps(d, max) && Rises(Next(d, max), max, k)
    requires forall e :: e in p1 ==> place(KeyOf(e)) <= k
    requires forall e, f :: e in p1 && f in p1 && place(KeyOf(e)) == place(KeyOf(f)) ==> KeyOf(e) == KeyOf(f)
    requires (forall e :: e in p1 ==>
                env.newPath(e.cmd, e.path) ==
                if tree && TreeData(e.cmd) then "t" + e.path
                else Path(Nth(Next(d, max), max, place(KeyOf(e))), gz(e.cmd)))
    ensures NamedAsReceived(env, tree, was, p1)
  {
    hide IsHighest, Rises, Next, Nth, Wraps, Path;
    var d0 := Next(d, max);
    forall e | e in p1 && !(tree && TreeData(e.cmd))
      ensures var dp := env.newPath(e.cmd, e.path); dp != "" && dp[0] != 't' && dp !in was
    {
      NumberIsFresh(was, used, d, max, k, place(KeyOf(e)), gz(e.cmd));
    }
    forall e, f | e in p1 && f in p1 && !(tree && TreeData(e.cmd)) && !(tree && TreeData(f.cmd)) &&
                  env.newPath(e.cmd, e.path) == env.newPath(f.cmd, f.path)
      ensures KeyOf(e) == KeyOf(f)
    {
      SamePathSamePlace(used, d, max, k, place(KeyOf(e)), gz(e.cmd), place(KeyOf(f)), gz(f.cmd));
    }
  }

  lemma NumberIsFresh(was: Dir, used: seq<Number>, d: Number, max: nat, k: nat, i: nat, gz: bool)
    requires Numbered(was, used) && IsHighest(used, d) && InRange(d, max) && max <= 0xFFFF
    requires !Wraps(d, max) && Rises(Next(d, max), max, k) && i <= k
    ensures var dp := Path(Nth(Next(d, max), max, i), gz); dp != "" && dp[0] != 't' && dp !in was
  {
    var n := Nth(Next(d, max), max, i);
    NthInRange(Next(d, max), max, i);
    PathScans(n, gz);
    NoDigits();
    NewNumbers(used, d, max, i, k);
    hide Path, ScanNumber, IsHexDigit, Nth, IsHighest, Rises;
    if Path(n, gz) in was {
      var u, g :| u in used && u.Short() && Path(n, gz) == Path(u, g);
      PathScans(u, g);
    }
  }

  lemma SamePathSamePlace(used: seq<Number>, d: Number, max: nat, k: nat, i: nat, g: bool, j: nat, h: bool)
    requires IsHighest(used, d) && InRange(d, max) && max <= 0xFFFF
    requires !Wraps(d, max) && Rises(Next(d, max), max, k) && i <= k && j <= k
    requires Path(Nth(Next(d, max), max, i), g) == Path(Nth(Next(d, max), max, j), h)
    ensures i == j
  {
    NthInRange(Next(d, max), max, i);
    NthInRange(Next(d, max), max, j);
    PathScans(Nth(Next(d, max), max, i), g);
    PathScans(Nth(Next(d, max), max, j), h);
    NewNumbers(used, d, max, i, k);
    NewNumbers(used, d, max, j, k);
  }
}
