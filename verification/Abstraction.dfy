/**
 * From the three views (directory map, contents by inumber, open-file table) to the client's file system:
 * inumbers disappear. Each lemma says what one change of the views is for the client.
 */
module Abstraction {
  import opened Bytes
  import opened Bitmap
  import opened FsState
  import opened AbstractFs

  datatype View = View(names: map<CStr, int>, contents: map<int, seq<byte>>, open: map<int, OpenFile>)

  /** Each name links to one inode and each inode in use has one name. */
  ghost predicate LinksOk(v: View) {
    Injective(v.names) && v.names.Values == v.contents.Keys
  }

  /** Every open handle is on a file in use, with its cursor inside it. */
  ghost predicate HandlesOk(v: View) {
    forall h | h in v.open ::
      v.open[h].inumber in v.contents && v.open[h].offset <= |v.contents[v.open[h].inumber]|
  }

  ghost predicate ViewOk(v: View) { LinksOk(v) && HandlesOk(v) }

  ghost function NameFor(names: map<CStr, int>, i: int): (n: CStr)
    requires i in names.Values
    ensures n in names && names[n] == i
  {
    var n :| n in names && names[n] == i;
    n
  }

  ghost function Files(v: View): map<CStr, seq<byte>>
    requires LinksOk(v)
  {
    map n | n in v.names :: v.contents[v.names[n]]
  }

  ghost function AbsOf(v: View): Fs
    requires ViewOk(v)
  {
    Fs(Files(v), map h | h in v.open :: Handle(NameFor(v.names, v.open[h].inumber), v.open[h].offset))
  }

  lemma NameForIs(names: map<CStr, int>, n: CStr)
    requires Injective(names) && n in names
    ensures NameFor(names, names[n]) == n
  {
  }

  lemma InsertFile(v: View, n: CStr, i: int)
    requires ViewOk(v) && n !in v.names && i !in v.contents
    ensures var w := View(v.names[n := i], v.contents[i := []], v.open);
            ViewOk(w) && AbsOf(w) == AbsOf(v).(files := AbsOf(v).files[n := []])
  {
    hide Injective, NameFor;
    var w := View(v.names[n := i], v.contents[i := []], v.open);
    InsertValue(v.names, n, i);
    assert Files(w) == Files(v)[n := []];
    forall h | h in v.open
      ensures v.open[h].inumber in v.names.Values
      ensures NameFor(w.names, v.open[h].inumber) == NameFor(v.names, v.open[h].inumber)
    {
      NameForIs(w.names, NameFor(v.names, v.open[h].inumber));
    }
  }

  lemma RemoveFile(v: View, n: CStr)
    requires ViewOk(v) && n in v.names
    requires !Refers(AbsOf(v), n)
    ensures var w := View(v.names - {n}, v.contents - {v.names[n]}, v.open);
            ViewOk(w) && AbsOf(w) == AbsOf(v).(files := AbsOf(v).files - {n})
  {
    var w := View(v.names - {n}, v.contents - {v.names[n]}, v.open);
    RemoveValue(v.names, n);
    assert Files(w) == Files(v) - {n};
    forall h | h in v.open
      ensures v.open[h].inumber != v.names[n]
      ensures NameFor(w.names, v.open[h].inumber) == NameFor(v.names, v.open[h].inumber)
    {
      assert AbsOf(v).handles[h].name != n;
      assert v.names[NameFor(v.names, v.open[h].inumber)] == v.open[h].inumber;
    }
  }

  /** New contents for one inode are new contents for the file of that name. */
  lemma ChangeFile(v: View, n: CStr, c: seq<byte>)
    requires ViewOk(v) && n in v.names
    requires forall h | h in v.open && v.open[h].inumber == v.names[n] :: v.open[h].offset <= |c|
    ensures var w := v.(contents := v.contents[v.names[n] := c]);
            ViewOk(w) && AbsOf(w) == AbsOf(v).(files := AbsOf(v).files[n := c])
  {
  }

  lemma SetHandle(v: View, h: int, n: CStr, off: nat)
    requires ViewOk(v) && n in v.names && off <= |v.contents[v.names[n]]|
    ensures var w := v.(open := v.open[h := OpenFile(v.names[n], off)]);
            ViewOk(w) && AbsOf(w) == AbsOf(v).(handles := AbsOf(v).handles[h := Handle(n, off)])
  {
  }

  lemma DropHandle(v: View, h: int)
    requires ViewOk(v) && h in v.open
    ensures var w := v.(open := v.open - {h});
            ViewOk(w) && AbsOf(w) == AbsOf(v).(handles := AbsOf(v).handles - {h})
  {
  }

  lemma FilesSize(v: View)
    requires LinksOk(v)
    ensures |Files(v)| == |v.names| == |v.contents|
  {
    assert Files(v).Keys == v.names.Keys;
    InjectiveSize(v.names);
  }

  /** Non-empty files are as many as non-empty inodes. */
  lemma NonEmptySize(v: View, inodes: set<int>)
    requires LinksOk(v) && inodes == set i | i in v.contents && v.contents[i] != []
    ensures |NonEmpty(Files(v))| == |inodes|
  {
    var m := map n | n in NonEmpty(Files(v)) :: v.names[n];
    InjectiveSize(m);
    assert m.Keys == NonEmpty(Files(v));
    forall i | i in inodes
      ensures i in m.Values
    {
      var n := NameFor(v.names, i);
      assert n in m && m[n] == i;
    }
    assert m.Values == inodes;
  }
}
