/** Directories (fs.c): files of 16-byte entries that act as a finite map from names to inode numbers. */
module Directory {
  import opened Params
  import opened FsDisk
  import opened FsBlocks
  import opened FsContent
  import opened BlockCount
  import opened FileSystem
  import opened Names

  const DIRENT := 16
  const T_DIR := 1

  /** A directory entry: its inode number, 0 when unused, and its name. */
  datatype Entry = Entry(inum: nat, name: seq<Byte>)

  /** The entry encoded in 16 bytes. */
  function Decoded(b: seq<Byte>): (e: Entry)
    requires |b| == DIRENT
    ensures e.inum == U16(b[0], b[1]) && e.name == Key(b[2..])
  {
    var lo: int, hi: int := b[0], b[1];
    Entry(lo + 256 * hi, Key(b[2..]))
  }

  function EntryBytes(inum: nat, name: seq<Byte>): (b: seq<Byte>)
    requires inum < 0x1_0000 && |name| == DIRSIZ
    ensures |b| == DIRENT && Decoded(b) == Entry(inum, Key(name))
  {
    var b := [inum % 256, inum / 256] + name;
    assert b[2..] == name;
    b
  }

  /** Where entry k starts. */
  function Offset(k: nat): nat {
    16 * k
  }

  function EntryAt(c: seq<Byte>, k: nat): Entry
    requires Offset(k) + DIRENT <= |c|
  {
    Decoded(c[Offset(k)..Offset(k) + DIRENT])
  }

  ghost function Entries(c: seq<Byte>): (es: seq<Entry>)
    ensures |es| == |c| / DIRENT
  {
    seq(|c| / DIRENT, k requires 0 <= k < |c| / DIRENT => EntryAt(c, k))
  }

  /** Entry k of a directory is its kth sixteen bytes: two for the inode number, low byte first, and fourteen for the name. */
  lemma EntryIs(c: seq<Byte>, k: nat, off: nat)
    requires off == 16 * k && off + 16 <= |c|
    ensures k < |Entries(c)| == |c| / 16 && Entries(c)[k] == Entry(U16(c[off], c[off + 1]), Key(c[off + 2..off + 16]))
  {
    assert c[off..off + 16][2..] == c[off + 2..off + 16];
  }

  lemma OverwriteByte(c: seq<Byte>, off: nat, b: seq<Byte>, i: nat)
    requires off <= |c| && i < |Overwrite(c, off, b)|
    ensures off <= i < off + |b| ==> Overwrite(c, off, b)[i] == b[i - off]
    ensures i < off || off + |b| <= i ==> i < |c| && Overwrite(c, off, b)[i] == c[i]
  {
  }

  lemma OverwriteInside(c: seq<Byte>, off: nat, b: seq<Byte>, hi: nat)
    requires off <= |c| && hi == off + |b| <= |Overwrite(c, off, b)|
    ensures Overwrite(c, off, b)[off..hi] == b
  {
    forall i | 0 <= i < |b| ensures Overwrite(c, off, b)[off..hi][i] == b[i] {
      OverwriteByte(c, off, b, off + i);
    }
  }

  lemma OverwriteOutside(c: seq<Byte>, off: nat, b: seq<Byte>, lo: nat, hi: nat)
    requires off <= |c| && lo <= hi <= |Overwrite(c, off, b)| && hi <= |c| && (hi <= off || off + |b| <= lo)
    ensures Overwrite(c, off, b)[lo..hi] == c[lo..hi]
  {
    forall i | 0 <= i < hi - lo ensures Overwrite(c, off, b)[lo..hi][i] == c[lo..hi][i] {
      OverwriteByte(c, off, b, lo + i);
    }
  }

  lemma EntryAfter(c: seq<Byte>, k: nat, off: nat, b: seq<Byte>, j: nat)
    requires off == Offset(k) <= |c| && |b| == DIRENT && Offset(j) + DIRENT <= |Overwrite(c, off, b)| && (j != k ==> Offset(j) + DIRENT <= |c|)
    ensures EntryAt(Overwrite(c, off, b), j) == if j == k then Decoded(b) else EntryAt(c, j)
  {
    var lo := Offset(j);
    var hi := lo + DIRENT;
    if j == k {
      OverwriteInside(c, off, b, hi);
    } else {
      OverwriteOutside(c, off, b, lo, hi);
    }
  }

  /** Writing an entry at slot k, or just behind the last one, changes just that entry. */
  lemma EntryWritten(c: seq<Byte>, k: nat, off: nat, b: seq<Byte>)
    requires |c| % DIRENT == 0 && k <= |c| / DIRENT && off == Offset(k) && |b| == DIRENT
    ensures off <= |c|
    ensures var d := Overwrite(c, off, b);
      |d| % DIRENT == 0 && Entries(d) == if k < |c| / DIRENT then Entries(c)[k := Decoded(b)] else Entries(c) + [Decoded(b)]
  {
    var d := Overwrite(c, off, b);
    var n := |c| / DIRENT;
    var es := if k < n then Entries(c)[k := Decoded(b)] else Entries(c) + [Decoded(b)];
    assert |c| == Offset(n) && |d| == Offset(|es|);
    forall j | 0 <= j < |es| ensures Entries(d)[j] == es[j] {
      EntryAfter(c, k, off, b, j);
    }
  }

  ghost predicate Carries(es: seq<Entry>, k: int, name: seq<Byte>) {
    0 <= k < |es| && es[k].inum != 0 && es[k].name == name
  }

  ghost predicate NoneBefore(es: seq<Entry>, name: seq<Byte>, k: nat) {
    forall j {:trigger Carries(es, j, name)} :: 0 <= j < k ==> !Carries(es, j, name)
  }

  /** The map from names to inode numbers that the entries stand for; of two entries for a name the first counts. */
  ghost function Bindings(es: seq<Entry>): map<seq<Byte>, nat> {
    if es == [] then map[]
    else
      var m, e := Bindings(es[1..]), es[0];
      if e.inum == 0 then m else m[e.name := e.inum]
  }

  /** A bound name is carried by some used entry. */
  lemma {:induction false} BoundHas(es: seq<Entry>, name: seq<Byte>) returns (k: nat)
    requires name in Bindings(es)
    ensures Carries(es, k, name) && NoneBefore(es, name, k)
  {
    if es[0].inum != 0 && es[0].name == name {
      k := 0;
    } else {
      var j := BoundHas(es[1..], name);
      k := j + 1;
      assert forall i :: 0 < i < k && Carries(es, i, name) ==> Carries(es[1..], i - 1, name);
    }
  }

  /** A name is bound to the inode number of the first entry that carries it. */
  lemma {:induction false} FirstIsBound(es: seq<Entry>, name: seq<Byte>, k: nat)
    requires Carries(es, k, name) && NoneBefore(es, name, k)
    ensures name in Bindings(es) && Bindings(es)[name] == es[k].inum
  {
    if k > 0 {
      assert !Carries(es, 0, name);
      forall i | 0 <= i < k - 1 ensures !Carries(es[1..], i, name) {
        assert !Carries(es, i + 1, name);
      }
      FirstIsBound(es[1..], name, k - 1);
    }
  }

  /** es' is es with entry e at an unused or new place k. */
  ghost predicate Added(es: seq<Entry>, es': seq<Entry>, k: nat, e: Entry) {
    (k < |es| && es[k].inum == 0 && es' == es[k := e]) || (k == |es| && es' == es + [e])
  }

  lemma AddedCarries(es: seq<Entry>, es': seq<Entry>, k: nat, e: Entry, name: seq<Byte>, j: nat)
    requires Added(es, es', k, e) && name != e.name
    ensures Carries(es', j, name) <==> Carries(es, j, name)
  {
  }

  /** Another name is bound as before. */
  lemma OtherBinding(es: seq<Entry>, es': seq<Entry>, k: nat, e: Entry, name: seq<Byte>)
    requires Added(es, es', k, e) && name != e.name
    ensures name in Bindings(es') <==> name in Bindings(es)
    ensures name in Bindings(es) ==> Bindings(es')[name] == Bindings(es)[name]
  {
    forall j: nat ensures Carries(es', j, name) <==> Carries(es, j, name) {
      AddedCarries(es, es', k, e, name, j);
    }
    if name in Bindings(es) {
      var j := BoundHas(es, name);
      FirstIsBound(es, name, j);
      FirstIsBound(es', name, j);
    } else if name in Bindings(es') {
      var j := BoundHas(es', name);
      FirstIsBound(es, name, j);
    }
  }

  /** Binding a new name in an unused or new entry adds just that binding. */
  lemma BindingAdded(es: seq<Entry>, es': seq<Entry>, k: nat, e: Entry)
    requires Added(es, es', k, e) && e.inum != 0 && NoneBefore(es, e.name, |es|)
    ensures Bindings(es') == Bindings(es)[e.name := e.inum]
  {
    forall j | 0 <= j < k ensures !Carries(es', j, e.name) {
      assert !Carries(es, j, e.name);
    }
    FirstIsBound(es', e.name, k);
    forall name | name != e.name
      ensures name in Bindings(es') <==> name in Bindings(es)
      ensures name in Bindings(es) ==> Bindings(es')[name] == Bindings(es)[name]
    {
      OtherBinding(es, es', k, e, name);
    }
  }

  /** Directory contents: whole entries. */
  ghost predicate DirOk(c: seq<Byte>) {
    |c| % DIRENT == 0
  }

  /** Nothing about the file system or dp has changed. */
  twostate predicate Untouched(fs: Fs, dp: Inode)
    reads fs, dp
  {
    fs.disk == old(fs.disk) && fs.owner == old(fs.owner) && fs.held == old(fs.held) && fs.logged == old(fs.logged) && dp.Rec() == old(dp.Rec())
  }

  /** Read entry k; what is behind the last whole entry is too short and makes the caller panic. */
  method ReadEntry(fs: Fs, dp: Inode, off: nat, ghost k: nat) returns (whole: bool, inum: nat, name: seq<Byte>)
    requires fs.Ready(dp) && dp.typ == T_DIR && off == Offset(k) < dp.size
    modifies fs`disk, fs`owner, fs`logged, dp`addrs
    ensures fs.Ready(dp) && Untouched(fs, dp) && |name| == DIRSIZ
    ensures whole <==> k < |Entries(fs.FileOf(dp))|
    ensures whole ==> Entries(fs.FileOf(dp))[k] == Entry(inum, Key(name))
  {
    var r, de := fs.Readi(dp, off, DIRENT, map[]);
    if r != DIRENT {
      return false, 0, seq(DIRSIZ, _ => 0);
    }
    assert de == fs.FileOf(dp)[off..off + DIRENT];
    whole, inum, name := true, Decoded(de).inum, de[2..];
  }

  lemma NoneNext(es: seq<Entry>, name: seq<Byte>, k: nat, next: nat)
    requires NoneBefore(es, name, k) && !Carries(es, k, name) && next == k + 1
    ensures NoneBefore(es, name, next)
  {
  }

  /** The first entry carrying the name, k counting entries; inum is 0 if there is none. */
  method FindEntry(fs: Fs, dp: Inode, name: seq<Byte>, ghost es: seq<Entry>) returns (inum: nat, off: nat, panicked: bool, ghost k: nat)
    requires fs.Ready(dp) && dp.typ == T_DIR && es == Entries(fs.FileOf(dp)) && Readable(name, DIRSIZ)
    modifies fs`disk, fs`owner, fs`logged, dp`addrs
    ensures fs.Ready(dp) && Untouched(fs, dp) && off == Offset(k) && k <= |es| && NoneBefore(es, Key(name), k)
    ensures inum != 0 ==> Carries(es, k, Key(name)) && inum == es[k].inum && !panicked
    ensures inum == 0 ==> k == |es| && (panicked <==> dp.size % DIRENT != 0)
  {
    off, k, panicked := 0, 0, false;
    ghost var key := Key(name);
    while off < dp.size
      invariant fs.Ready(dp) && Untouched(fs, dp)
      invariant off == Offset(k) && k <= |es| && NoneBefore(es, key, k)
    {
      var whole, de;
      whole, inum, de := ReadEntry(fs, dp, off, k);
      if !whole {
        return 0, off, true, k;
      }
      if inum != 0 {
        var d := Namecmp(name, de);
        if d == 0 {
          return;
        }
      }
      ghost var next := k + 1;
      NoneNext(es, key, k, next);
      off, k := off + DIRENT, next;
    }
    inum := 0;
  }

  lemma LookupMeans(es: seq<Entry>, name: seq<Byte>, inum: nat, k: nat)
    requires NoneBefore(es, name, k) && (if inum != 0 then Carries(es, k, name) && inum == es[k].inum else k == |es|)
    ensures inum != 0 <==> name in Bindings(es)
    ensures inum != 0 ==> Bindings(es)[name] == inum
  {
    if inum != 0 {
      FirstIsBound(es, name, k);
    } else if name in Bindings(es) {
      var j := BoundHas(es, name);
    }
  }

  /**
   Look a name up: the result is what the directory binds it to, 0 if it binds it to nothing.
   It panics on an inode that is no directory, and when it comes to a cut-off last entry.
   */
  method Dirlookup(fs: Fs, dp: Inode, name: seq<Byte>) returns (inum: nat, off: nat, panicked: bool, ghost k: nat)
    requires fs.Ready(dp) && Readable(name, DIRSIZ)
    modifies fs`disk, fs`owner, fs`logged, dp`addrs
    ensures fs.Ready(dp) && Untouched(fs, dp)
    ensures panicked <==> dp.typ != T_DIR || (!DirOk(fs.FileOf(dp)) && Key(name) !in Bindings(Entries(fs.FileOf(dp))))
    ensures dp.typ == T_DIR ==> (inum != 0 <==> Key(name) in Bindings(Entries(fs.FileOf(dp))))
    ensures inum != 0 ==> dp.typ == T_DIR && Bindings(Entries(fs.FileOf(dp)))[Key(name)] == inum && off == 16 * k && Carries(Entries(fs.FileOf(dp)), k, Key(name))
    ensures !panicked && inum == 0 ==> NoneBefore(Entries(fs.FileOf(dp)), Key(name), |Entries(fs.FileOf(dp))|)
  {
    if dp.typ != T_DIR {
      return 0, 0, true, 0;
    }
    ghost var es := Entries(fs.FileOf(dp));
    inum, off, panicked, k := FindEntry(fs, dp, name, es);
    LookupMeans(es, Key(name), inum, k);
  }

  ghost predicate AllUsed(es: seq<Entry>, k: nat) {
    k <= |es| && forall j :: 0 <= j < k ==> es[j].inum != 0
  }

  lemma UsedNext(es: seq<Entry>, k: nat, next: nat)
    requires AllUsed(es, k) && k < |es| && es[k].inum != 0 && next == k + 1
    ensures AllUsed(es, next)
  {
  }

  /** dirlink's search for an unused entry, or the end. */
  method FindUnused(fs: Fs, dp: Inode, ghost es: seq<Entry>) returns (off: nat, ghost k: nat)
    requires fs.Ready(dp) && dp.typ == T_DIR && DirOk(fs.FileOf(dp)) && es == Entries(fs.FileOf(dp))
    modifies fs`disk, fs`owner, fs`logged, dp`addrs
    ensures fs.Ready(dp) && Untouched(fs, dp) && off == Offset(k) && AllUsed(es, k) && (k < |es| ==> es[k].inum == 0)
  {
    off, k := 0, 0;
    while off < dp.size
      invariant fs.Ready(dp) && Untouched(fs, dp) && off == Offset(k) && AllUsed(es, k)
    {
      var _, inum, _ := ReadEntry(fs, dp, off, k);
      if inum == 0 {
        return;
      }
      ghost var next := k + 1;
      UsedNext(es, k, next);
      off, k := off + DIRENT, next;
    }
  }

  /** A new entry written at the place FindUnused found adds its binding and no other. */
  lemma Linked(c: seq<Byte>, k: nat, off: nat, inum: nat, name: seq<Byte>)
    requires DirOk(c) && k <= |Entries(c)| && (k < |Entries(c)| ==> Entries(c)[k].inum == 0) && off == Offset(k)
    requires 0 < inum < 0x1_0000 && Readable(name, DIRSIZ) && NoneBefore(Entries(c), Key(name), |Entries(c)|)
    ensures off <= |c|
    ensures var d := Overwrite(c, off, EntryBytes(inum, Padded(name))); DirOk(d) && Bindings(Entries(d)) == Bindings(Entries(c))[Key(name) := inum]
  {
    PaddedKey(name);
    var b := EntryBytes(inum, Padded(name));
    EntryWritten(c, k, off, b);
    BindingAdded(Entries(c), Entries(Overwrite(c, off, b)), k, Decoded(b));
  }

  /** Entry k is the first that is unused, or new. */
  ghost predicate FirstUnused(es: seq<Entry>, k: nat) {
    k <= |es| && (forall j :: 0 <= j < k ==> es[j].inum != 0) && (k < |es| ==> es[k].inum == 0)
  }

  /**
   Bind name to inum.  The call fails exactly when the name is bound; otherwise it adds that
   binding in entry k, bytes lo..hi, and leaves the others and every other file alone.  It
   panics exactly on something that is no directory, on an unbound name in a directory with a
   cut-off last entry, when the entry is beyond the largest file, or when the disk has fewer
   free blocks than the entry still needs.
   */
  method Dirlink(fs: Fs, dp: Inode, name: seq<Byte>, inum: nat) returns (r: int, panicked: bool, ghost k: nat, ghost lo: nat, ghost hi: nat)
    requires fs.Ready(dp) && Readable(name, DIRSIZ) && 0 < inum < 0x1_0000
    modifies fs`disk, fs`owner, fs`logged, dp`size, dp`addrs
    ensures dp.typ != T_DIR ==> panicked
    ensures dp.typ == T_DIR && Key(name) in old(Bindings(Entries(fs.FileOf(dp)))) ==> r == -1 && !panicked && fs.Ready(dp) && Untouched(fs, dp)
    ensures dp.typ == T_DIR && Key(name) !in old(Bindings(Entries(fs.FileOf(dp)))) && !old(DirOk(fs.FileOf(dp))) ==> panicked
    ensures dp.typ == T_DIR && Key(name) !in old(Bindings(Entries(fs.FileOf(dp)))) && old(DirOk(fs.FileOf(dp))) ==>
      && FirstUnused(old(Entries(fs.FileOf(dp))), k) && lo == 16 * k && hi == 16 * k + 16
      && (panicked <==> hi > MAXBYTES || |Unmarked(fs.sb, old(fs.disk))| < |Needed(lo, hi) - Has(old(fs.disk), old(dp.Rec()))|)
    ensures dp.typ == T_DIR && Key(name) !in old(Bindings(Entries(fs.FileOf(dp)))) && !panicked ==>
      && r == 0 && fs.Ready(dp) && DirOk(fs.FileOf(dp)) && OthersSame(fs.sb, old(fs.disk), fs.disk, dp.inum)
      && AllLogged(old(fs.disk), old(fs.logged), fs.disk, fs.logged)
      && Bindings(Entries(fs.FileOf(dp))) == old(Bindings(Entries(fs.FileOf(dp))))[Key(name) := inum]
  {
    ghost var c := fs.FileOf(dp);
    k, lo, hi := 0, 0, 0;
    var found, _, bad, _ := Dirlookup(fs, dp, name);
    if bad {
      return -1, true, k, lo, hi;
    }
    if found != 0 {
      return -1, false, k, lo, hi;
    }
    panicked, k, lo, hi := LinkNew(fs, dp, name, inum, c);
    r := 0;
  }

  /** The rest of dirlink, once the name is known to be new. */
  method LinkNew(fs: Fs, dp: Inode, name: seq<Byte>, inum: nat, ghost c: seq<Byte>) returns (panicked: bool, ghost k: nat, ghost lo: nat, ghost hi: nat)
    requires fs.Ready(dp) && dp.typ == T_DIR && DirOk(c) && Readable(name, DIRSIZ) && 0 < inum < 0x1_0000
    requires c == fs.FileOf(dp) && NoneBefore(Entries(c), Key(name), |Entries(c)|)
    modifies fs`disk, fs`owner, fs`logged, dp`size, dp`addrs
    ensures FirstUnused(Entries(c), k) && lo == 16 * k && hi == 16 * k + 16
    ensures panicked <==> hi > MAXBYTES || |Unmarked(fs.sb, old(fs.disk))| < |Needed(lo, hi) - Has(old(fs.disk), old(dp.Rec()))|
    ensures !panicked ==>
      && fs.Ready(dp) && DirOk(fs.FileOf(dp)) && OthersSame(fs.sb, old(fs.disk), fs.disk, dp.inum)
      && AllLogged(old(fs.disk), old(fs.logged), fs.disk, fs.logged)
      && Bindings(Entries(fs.FileOf(dp))) == Bindings(Entries(c))[Key(name) := inum]
  {
    var off;
    off, k := FindUnused(fs, dp, Entries(c));
    Linked(c, k, off, inum, name);
    var de := Strncpy(name);
    var r;
    r, panicked, hi := fs.Writei(dp, EntryBytes(inum, de), off, map[]);
    lo := off;
    if !panicked && r != DIRENT {
      panicked := true;
    }
  }
}
