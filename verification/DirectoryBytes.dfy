/** Directory entries in the bytes of a directory file: 32 bytes each, an inode number of two
    bytes, then the name, ended by a zero byte. */
module DirectoryBytes {
  import opened Directory
  import opened FileBytes

  const ENTRY: nat := 32
  const NAMELEN: nat := 12

  /** The bytes up to the first zero. */
  function CString(s: seq<nat>): (r: seq<nat>)
    ensures |r| <= |s| && r == s[..|r|]
  {
    if s == [] || s[0] == 0 then [] else [s[0]] + CString(s[1..])
  }

  function Decode(b: seq<nat>): Dirent
    requires |b| == ENTRY
  {
    Dirent(b[0] + 256 * b[1], CString(b[2..]))
  }

  /** The string in s is name: its bytes, none of them zero, and a zero unless s ends there. */
  ghost predicate Text(s: seq<nat>, name: Name) {
    && |name| <= |s| && (forall i | 0 <= i < |name| :: s[i] == name[i] && name[i] != 0)
    && (|name| < |s| ==> s[|name|] == 0)
  }

  lemma {:induction false} TextIs(s: seq<nat>, name: Name)
    ensures CString(s) == name <==> Text(s, name)
  {
    if s != [] && s[0] != 0 {
      if name != [] {
        TextIs(s[1..], name[1..]);
        assert CString(s) == name <==> s[0] == name[0] && CString(s[1..]) == name[1..] by {
          assert name == [name[0]] + name[1..];
        }
        TextTail(s, name);
      }
    }
  }

  lemma TextTail(s: seq<nat>, name: Name)
    requires s != [] && name != []
    ensures Text(s, name) <==> s[0] == name[0] && name[0] != 0 && Text(s[1..], name[1..])
  {
    if s[0] == name[0] && name[0] != 0 && Text(s[1..], name[1..]) {
      forall i | 0 <= i < |name| ensures s[i] == name[i] && name[i] != 0 {
        if i > 0 { assert s[1..][i - 1] == name[1..][i - 1]; }
      }
    }
  }

  function EntryBytes(c: seq<nat>, k: nat): seq<nat>
    requires ENTRY * k + ENTRY <= |c|
  {
    c[ENTRY * k..ENTRY * k + ENTRY]
  }

  /** The entries of a directory file. */
  function Entries(c: seq<nat>): (es: seq<Dirent>)
    ensures |es| == |c| / ENTRY && forall k | 0 <= k < |es| :: es[k] == Decode(EntryBytes(c, k))
  {
    seq(|c| / ENTRY, k requires 0 <= k < |c| / ENTRY => Decode(EntryBytes(c, k)))
  }

  // ---------------------------------------------------------------- changing one entry

  lemma SplicedAt(c: seq<nat>, off: nat, data: seq<nat>, i: nat)
    requires off <= |c| && i < |Spliced(c, off, data)|
    ensures Spliced(c, off, data)[i] == if off <= i < off + |data| then data[i - off] else c[i]
  {
  }

  /** Bytes written inside entry k leave the other entries alone. */
  lemma OtherEntries(c: seq<nat>, k: nat, at: nat, data: seq<nat>, j: nat)
    requires at + |data| <= ENTRY && ENTRY * k + at <= |c| && j != k && ENTRY * j + ENTRY <= |c|
    requires ENTRY * j + ENTRY <= |Spliced(c, ENTRY * k + at, data)|
    ensures EntryBytes(Spliced(c, ENTRY * k + at, data), j) == EntryBytes(c, j)
  {
    var c' := Spliced(c, ENTRY * k + at, data);
    assert ENTRY * j + ENTRY <= ENTRY * k || ENTRY * k + ENTRY <= ENTRY * j by {
      if j < k { Slots(j, k); } else { Slots(k, j); }
    }
    forall i | 0 <= i < ENTRY ensures EntryBytes(c', j)[i] == EntryBytes(c, j)[i] {
      SplicedAt(c, ENTRY * k + at, data, ENTRY * j + i);
    }
  }

  lemma Slots(j: nat, k: nat)
    requires j < k
    ensures ENTRY * j + ENTRY <= ENTRY * k
  {
  }

  /** A whole entry written over entry k, or after the last one. */
  lemma WholeEntry(c: seq<nat>, k: nat, b: seq<nat>)
    requires |c| % ENTRY == 0 && k <= |c| / ENTRY && |b| == ENTRY
    ensures ENTRY * k <= |c| && |Spliced(c, ENTRY * k, b)| % ENTRY == 0
    ensures Entries(Spliced(c, ENTRY * k, b)) ==
              if k < |c| / ENTRY then Entries(c)[k := Decode(b)] else Entries(c) + [Decode(b)]
  {
    var c', es := Spliced(c, ENTRY * k, b), Entries(c);
    if k < |c| / ENTRY { Slots(k, |c| / ENTRY); }
    var want := if k < |es| then es[k := Decode(b)] else es + [Decode(b)];
    assert |Entries(c')| == |want|;
    assert EntryBytes(c', k) == b;
    forall j | 0 <= j < |want| ensures Entries(c')[j] == want[j] {
      if j != k { OtherEntries(c, k, 0, b, j); }
    }
  }

  /** Two zero bytes at the start of entry k make it dead. */
  lemma DeadEntry(c: seq<nat>, k: nat)
    requires |c| % ENTRY == 0 && k < |c| / ENTRY
    ensures ENTRY * k + ENTRY <= |c| && |Spliced(c, ENTRY * k, [0, 0])| == |c|
    ensures Entries(Spliced(c, ENTRY * k, [0, 0])) == Entries(c)[k := Dirent(0, Entries(c)[k].name)]
  {
    Slots(k, |c| / ENTRY);
    var c' := Spliced(c, ENTRY * k, [0, 0]);
    assert EntryBytes(c', k)[2..] == EntryBytes(c, k)[2..];
    forall j | 0 <= j < |Entries(c)| && j != k ensures Entries(c')[j] == Entries(c)[j] {
      OtherEntries(c, k, 0, [0, 0], j);
    }
    assert Entries(c') == Entries(c)[k := Dirent(0, Entries(c)[k].name)];
  }

  // ---------------------------------------------------------------- names

  /** Names as programs pass them: no zero byte, and a zero byte after them. */
  predicate IsName(name: Name) {
    forall i | 0 <= i < |name| :: 0 < name[i] < 256
  }

  /** The part of a name that is searched for. */
  function Cut(name: Name): Name {
    if |name| > NAMELEN then name[..NAMELEN] else name
  }

  /** `strncpy` of one byte more than the cut name into d_name. */
  function NewEntry(de: seq<nat>, name: Name, ino: nat): (b: seq<nat>)
    requires |de| == ENTRY && ino < 0x1_0000
    ensures |b| == ENTRY
  {
    var text := (name + [0])[..|Cut(name)| + 1];
    [ino % 256, ino / 256] + text + de[2 + |text|..]
  }

  lemma {:induction false} CStringOf(s: seq<nat>, name: Name)
    requires IsName(name) && name < s && s[|name|] == 0
    ensures CString(s) == name
  {
    if name != [] {
      assert s[0] == name[0];
      assert forall i | 0 <= i < |name[1..]| :: name[1..][i] == s[1..][i];
      CStringOf(s[1..], name[1..]);
    } else {
      assert s[0] == 0;
    }
  }

  lemma {:induction false} CStringLong(s: seq<nat>, n: nat)
    requires n <= |s| && forall i | 0 <= i < n :: s[i] != 0
    ensures |CString(s)| >= n
  {
    if n > 0 { CStringLong(s[1..], n - 1); }
  }

  /** The entry made for a name can be found under it exactly if the name has at most 12 bytes:
      a longer one loses its end. */
  lemma NewEntryDecodes(de: seq<nat>, name: Name, ino: nat)
    requires |de| == ENTRY && ino < 0x1_0000 && IsName(name)
    ensures Decode(NewEntry(de, name, ino)).ino == ino
    ensures |name| <= NAMELEN ==> Decode(NewEntry(de, name, ino)) == Dirent(ino, name)
    ensures Decode(NewEntry(de, name, ino)).name == Cut(name) <==> |name| <= NAMELEN
  {
    var b := NewEntry(de, name, ino);
    if |name| <= NAMELEN {
      var text := name + [0];
      assert b[2..] == text + de[2 + |text|..] && text[|name|] == 0;
      assert name == b[2..][..|name|];
      CStringOf(b[2..], name);
    } else {
      var text := name[..NAMELEN + 1];
      assert (name + [0])[..NAMELEN + 1] == text;
      assert b[2..] == text + de[2 + |text|..];
      CStringLong(b[2..], NAMELEN + 1);
    }
  }

  /** The shortest name that is lost. */
  lemma ThirteenLost()
    ensures var name, de := seq(13, _ => 97), seq(ENTRY, _ => 0); Decode(NewEntry(de, name, 5)).name != Cut(name)
  {
    NewEntryDecodes(seq(ENTRY, _ => 0), seq(13, _ => 97), 5);
  }
}
