/** A directory as a list of entries. Unlinking leaves a dead entry (inode number 0) with its
    name behind; linking takes the first dead entry; searching takes the first entry with the
    right name, dead or not. */
module Directory {
  type Name = seq<nat>

  datatype Dirent = Dirent(ino: nat, name: Name)

  /** The first entry with the given name, |es| if there is none. */
  function First(es: seq<Dirent>, name: Name): (k: nat)
    ensures k <= |es| && (k < |es| ==> es[k].name == name)
    ensures forall j | 0 <= j < k :: es[j].name != name
  {
    if es == [] then 0
    else if es[0].name == name then 0
    else
      var k := First(es[1..], name);
      assert forall j | 0 < j <= k :: es[j] == es[1..][j - 1];
      k + 1
  }

  /** The first dead entry, |es| if there is none. */
  function FirstDead(es: seq<Dirent>): (k: nat)
    ensures k <= |es| && (k < |es| ==> es[k].ino == 0)
    ensures forall j | 0 <= j < k :: es[j].ino != 0
  {
    if es == [] then 0
    else if es[0].ino == 0 then 0
    else
      var k := FirstDead(es[1..]);
      assert forall j | 0 < j <= k :: es[j] == es[1..][j - 1];
      k + 1
  }

  function Find(es: seq<Dirent>, name: Name): nat {
    var k := First(es, name);
    if k < |es| then es[k].ino else 0
  }

  function Unlink(es: seq<Dirent>, name: Name): seq<Dirent> {
    var k := First(es, name);
    if k < |es| then es[k := Dirent(0, name)] else es
  }

  function Link(es: seq<Dirent>, name: Name, ino: nat): seq<Dirent> {
    var k := FirstDead(es);
    if k < |es| then es[k := Dirent(ino, name)] else es + [Dirent(ino, name)]
  }

  // ---------------------------------------------------------------- the name map

  /** Of the entries with one name only the first may be live. */
  ghost predicate Orderly(es: seq<Dirent>) {
    forall j, k | 0 <= j < k < |es| && es[j].name == es[k].name :: es[k].ino == 0
  }

  ghost predicate Live(es: seq<Dirent>, name: Name, ino: nat) {
    ino != 0 && Dirent(ino, name) in es
  }

  /** m holds exactly the live entries. */
  ghost predicate Shows(es: seq<Dirent>, m: map<Name, nat>) {
    && Orderly(es)
    && (forall name, ino | Live(es, name, ino) :: name in m && m[name] == ino)
    && (forall name | name in m :: Live(es, name, m[name]))
  }

  /** The first match is the right answer, though it may be dead. */
  lemma FindShows(es: seq<Dirent>, m: map<Name, nat>, name: Name)
    requires Shows(es, m)
    ensures Find(es, name) == if name in m then m[name] else 0
  {
    var k := First(es, name);
    if name in m {
      assert Live(es, name, m[name]);
      var j :| 0 <= j < |es| && es[j] == Dirent(m[name], name);
      assert k <= j;
    } else if k < |es| {
      assert !Live(es, name, es[k].ino);
      assert es[k] == Dirent(es[k].ino, name);
    }
  }

  lemma UnlinkShows(es: seq<Dirent>, m: map<Name, nat>, name: Name)
    requires Shows(es, m)
    ensures Shows(Unlink(es, name), m - {name})
  {
    var es', k := Unlink(es, name), First(es, name);
    forall n, ino | Live(es', n, ino) ensures n in m - {name} && m[n] == ino {
      var j :| 0 <= j < |es'| && es'[j] == Dirent(ino, n);
      assert es[j] == Dirent(ino, n) && Live(es, n, ino);
    }
    forall n | n in m - {name} ensures Live(es', n, m[n]) {
      assert Live(es, n, m[n]);
      var j :| 0 <= j < |es| && es[j] == Dirent(m[n], n);
      assert es'[j] == es[j];
    }
  }

  /** Linking a name that is not there keeps the order, because the first dead entry has no
      dead entry before it. */
  lemma LinkShows(es: seq<Dirent>, m: map<Name, nat>, name: Name, ino: nat)
    requires Shows(es, m) && name !in m && ino != 0
    ensures Shows(Link(es, name, ino), m[name := ino])
  {
    var es', k, m' := Link(es, name, ino), FirstDead(es), m[name := ino];
    assert es'[k] == Dirent(ino, name);
    assert forall j | 0 <= j < |es'| && j != k :: es'[j] == es[j];
    forall j | 0 <= j < |es| && es[j].name == name ensures es[j].ino == 0 {
      assert es[j] == Dirent(es[j].ino, name) && !Live(es, name, es[j].ino);
    }
    forall n, i | Live(es', n, i) ensures n in m' && m'[n] == i {
      var j :| 0 <= j < |es'| && es'[j] == Dirent(i, n);
      assert j == k || Live(es, n, i);
    }
    forall n | n in m' ensures Live(es', n, m'[n]) {
      if n != name {
        assert Live(es, n, m[n]);
        var j :| 0 <= j < |es| && es[j] == Dirent(m[n], n);
        assert es'[j] == es[j];
      }
    }
  }

  /** `link_entry` does not look for the name itself. It keeps the order exactly when the name
      is not there. */
  lemma LinkNeedsAbsence(es: seq<Dirent>, m: map<Name, nat>, name: Name, ino: nat)
    requires Shows(es, m) && ino != 0
    ensures Orderly(Link(es, name, ino)) <==> name !in m
  {
    var es', k := Link(es, name, ino), FirstDead(es);
    if name in m {
      assert Live(es, name, m[name]);
      var j :| 0 <= j < |es| && es[j] == Dirent(m[name], name);
      assert es'[j] == es[j] && es'[k] == Dirent(ino, name);
    } else {
      LinkShows(es, m, name, ino);
    }
  }

  /** `do_unlink` takes back the removal of a directory by linking the name again: the entry
      may have moved, the map has not changed. */
  lemma UnlinkUndone(es: seq<Dirent>, m: map<Name, nat>, name: Name)
    requires Shows(es, m) && name in m
    ensures Shows(Link(Unlink(es, name), name, Find(es, name)), m)
  {
    FindShows(es, m, name);
    UnlinkShows(es, m, name);
    assert Live(es, name, m[name]);
    LinkShows(Unlink(es, name), m - {name}, name, m[name]);
    assert (m - {name})[name := m[name]] == m;
  }

  /** Linking a name twice leaves two live entries. */
  lemma LinkTwice()
    ensures Orderly([Dirent(5, [97])]) && !Orderly(Link([Dirent(5, [97])], [97], 6))
  {
    var es := [Dirent(5, [97])];
    assert FirstDead(es) == 1;
    var es' := Link(es, [97], 6);
    assert es'[0].name == es'[1].name && es'[1].ino != 0;
  }
}
