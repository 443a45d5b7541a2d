/** The index of files in loaded GRF archives (grfio.c): chained hash lists threaded through an
    array that grows and shrinks, which stand for a map keyed by the name without its case. */
module GrfIndex {
  // ---------- Names ----------

  // The bytes of a C string before its terminator.
  type Name = s: seq<bv8> | 0 !in s

  // tolower in the C locale.
  function Lower(c: bv8): bv8 { if 0x41 <= c <= 0x5A then c + 0x20 else c }

  function Fold(s: seq<bv8>): (f: seq<bv8>)
    ensures |f| == |s|
  {
    seq(|s|, i requires 0 <= i < |s| => Lower(s[i]))
  }

  function HashStep(h: bv32, c: bv8): bv32 { (h << 1) + (h >> 7) * 9 + c as bv32 }

  function Mixed(s: seq<bv8>): bv32
  {
    if s == [] then 0 else HashStep(Mixed(s[..|s| - 1]), Lower(s[|s| - 1]))
  }

  const BUCKETS: nat := 256

  function Bucket(h: bv32): (b: nat)
    ensures b < BUCKETS
  {
    (h & 0xff) as nat
  }

  function Hash(s: seq<bv8>): (h: nat)
    ensures h < BUCKETS
  {
    Bucket(Mixed(s))
  }

  // Names that differ only in case hash alike.
  lemma {:induction false} HashIgnoresCase(s: seq<bv8>, t: seq<bv8>)
    requires Fold(s) == Fold(t)
    ensures Mixed(s) == Mixed(t) && Hash(s) == Hash(t)
    decreases |s|
  {
    hide HashStep, Lower;
    assert |s| == |Fold(s)| == |Fold(t)| == |t|;
    if s != [] {
      var n := |s| - 1;
      assert Fold(s[..n]) == Fold(s)[..n] && Fold(t[..n]) == Fold(t)[..n];
      assert Lower(s[n]) == Fold(s)[n] == Fold(t)[n] == Lower(t[n]);
      HashIgnoresCase(s[..n], t[..n]);
    }
  }

  method FileHash(fname: Name) returns (h: nat)
    ensures h == Hash(fname)
  {
    hide HashStep, Bucket;
    var hash: bv32 := 0;
    var i := 0;
    while i < |fname|
      invariant 0 <= i <= |fname| && hash == Mixed(fname[..i])
    {
      assert fname[..i + 1][..i] == fname[..i];
      hash := HashStep(hash, Lower(fname[i]));
      i := i + 1;
    }
    assert fname[..i] == fname;
    h := Bucket(hash);
  }

  // ---------- Entries ----------

  datatype Option<T> = None | Some(value: T)

  // What a file entry says besides its place in a chain.
  datatype File = File(fn: Name, srclen: int, srclenAligned: int, declen: int, srcpos: int,
                       kind: bv8, original: Option<Name>, gentry: int)

  datatype Entry = Entry(file: File, next: int)

  const EMPTY: Entry := Entry(File([], 0, 0, 0, 0, 0, None, 0), 0)
  const FILELIST_ADDS: nat := 1024

  function Key(e: Entry): seq<bv8> { Fold(e.file.fn) }

  // The last of the first k entries in the given bucket, or -1.
  function Last(list: seq<Entry>, bucket: nat, k: nat): (i: int)
    requires k <= |list|
    ensures -1 <= i < k
  {
    if k == 0 then -1
    else if Hash(list[k - 1].file.fn) == bucket then k - 1
    else Last(list, bucket, k - 1)
  }

  lemma {:induction false} LastIs(list: seq<Entry>, bucket: nat, k: nat)
    requires k <= |list|
    ensures var i := Last(list, bucket, k);
      && (i >= 0 ==> Hash(list[i].file.fn) == bucket)
      && forall j | i < j < k :: Hash(list[j].file.fn) != bucket
    decreases k
  {
    hide Hash;
    if k > 0 { LastIs(list, bucket, k - 1); }
  }

  // Every entry is linked to the one before it in its bucket.
  predicate LinkedAt(list: seq<Entry>, i: nat)
    requires i < |list|
  {
    list[i].next == Last(list, Hash(list[i].file.fn), i)
  }

  ghost predicate Linked(list: seq<Entry>)
  {
    forall i: nat | i < |list| :: LinkedAt(list, i)
  }

  ghost predicate DistinctNames(list: seq<Entry>)
  {
    forall i, j | 0 <= i < j < |list| :: Key(list[i]) != Key(list[j])
  }

  // The map a list of entries stands for.
  function Files(list: seq<Entry>): map<seq<bv8>, File>
  {
    if list == [] then map[] else Files(list[..|list| - 1])[Key(list[|list| - 1]) := list[|list| - 1].file]
  }

  lemma {:induction false} FilesAre(list: seq<Entry>, key: seq<bv8>)
    requires DistinctNames(list)
    ensures key in Files(list) <==> exists i :: 0 <= i < |list| && Key(list[i]) == key
    ensures forall i | 0 <= i < |list| && Key(list[i]) == key :: key in Files(list) && Files(list)[key] == list[i].file
    decreases |list|
  {
    if list != [] {
      hide Key;
      var n := |list| - 1;
      FilesAre(list[..n], key);
      forall i | 0 <= i < |list| && Key(list[i]) == key
        ensures key in Files(list) && Files(list)[key] == list[i].file
      {
        if i < n { assert list[..n][i] == list[i] && Key(list[n]) != key; }
      }
      if key in Files(list) {
        if key in Files(list[..n]) {
          var i :| 0 <= i < n && Key(list[..n][i]) == key;
          assert Key(list[i]) == key;
        } else {
          assert Key(list[n]) == key;
        }
      }
    }
  }

  // Replacing the file of an entry by one of the same name updates the map there.
  lemma {:induction false} FilesReplaced(list: seq<Entry>, i: nat, e: Entry)
    requires DistinctNames(list) && i < |list| && Key(list[i]) == Key(e)
    ensures Files(list[i := e]) == Files(list)[Key(e) := e.file]
    decreases |list|
  {
    hide Key;
    var n := |list| - 1;
    if i == n {
      assert list[n := e][..n] == list[..n];
    } else {
      FilesReplaced(list[..n], i, e);
      assert list[i := e][..n] == list[..n][i := e];
      assert Key(list[n]) != Key(list[i]);
    }
  }

  lemma {:induction false} LastDepends(a: seq<Entry>, b: seq<Entry>, bucket: nat, k: nat)
    requires k <= |a| && k <= |b|
    requires forall i | 0 <= i < k :: Hash(a[i].file.fn) == Hash(b[i].file.fn)
    ensures Last(a, bucket, k) == Last(b, bucket, k)
    decreases k
  {
    if k > 0 { LastDepends(a, b, bucket, k - 1); }
  }

  // ---------- Chains ----------

  // The indices met from i on, following the links.
  function Chain(list: seq<Entry>, i: int): seq<int>
    requires Linked(list) && -1 <= i < |list|
    decreases i + 1
  {
    if i == -1 then []
    else
      assert LinkedAt(list, i);
      [i] + Chain(list, list[i].next)
  }

  ghost predicate Decreasing(c: seq<int>) { forall a, b | 0 <= a < b < |c| :: c[a] > c[b] }

  predicate InBucket(list: seq<Entry>, bucket: nat, k: nat, j: int)
    requires k <= |list|
  {
    0 <= j < k && Hash(list[j].file.fn) == bucket
  }

  ghost predicate HoldsBucket(c: seq<int>, list: seq<Entry>, bucket: nat, k: nat)
    requires k <= |list|
  {
    forall j: int :: j in c <==> InBucket(list, bucket, k, j)
  }

  // A chain has strictly decreasing indices, so it is acyclic, and holds exactly the entries of
  // its bucket.
  lemma {:induction false} ChainIsBucket(list: seq<Entry>, bucket: nat, k: nat)
    requires Linked(list) && k <= |list|
    ensures Decreasing(Chain(list, Last(list, bucket, k)))
    ensures HoldsBucket(Chain(list, Last(list, bucket, k)), list, bucket, k)
    decreases k
  {
    LastIs(list, bucket, k);
    var i := Last(list, bucket, k);
    if i >= 0 {
      hide Hash, Last, Decreasing, HoldsBucket;
      ChainIsBucket(list, bucket, i);
      assert LinkedAt(list, i);
      ChainExtended(Chain(list, list[i].next), list, bucket, k, i);
    }
  }

  lemma ChainExtended(rest: seq<int>, list: seq<Entry>, bucket: nat, k: nat, i: nat)
    requires i < k <= |list| && Hash(list[i].file.fn) == bucket
    requires forall j | i < j < k :: Hash(list[j].file.fn) != bucket
    requires Decreasing(rest) && HoldsBucket(rest, list, bucket, i)
    ensures Decreasing([i] + rest) && HoldsBucket([i] + rest, list, bucket, k)
  {
    hide Hash;
    var c := [i] + rest;
    forall a, b | 0 <= a < b < |c| ensures c[a] > c[b] {
      assert c[b] == rest[b - 1] && rest[b - 1] in rest;
      assert InBucket(list, bucket, i, c[b]);
      if a > 0 { assert c[a] == rest[a - 1]; }
    }
    forall j: int ensures j in c <==> InBucket(list, bucket, k, j) {
      assert j in c <==> j == i || j in rest;
      assert j in rest <==> InBucket(list, bucket, i, j);
    }
  }

  // ---------- The index ----------

  class FileIndex {
    var filelist: array?<Entry>
    var entrys: nat
    const heads: array<int>

    // The entries in use.
    ghost function List(): seq<Entry>
      reads this, filelist
    {
      if filelist == null || entrys > filelist.Length then [] else filelist[..entrys]
    }

    ghost predicate Valid()
      reads this, filelist, heads
    {
      && heads.Length == BUCKETS
      && (filelist == null ==> entrys == 0) && (filelist != null ==> entrys <= filelist.Length)
      && Linked(List()) && DistinctNames(List())
      && forall h: nat | h < BUCKETS :: heads[h] == Last(List(), h, entrys)
    }

    ghost function Contents(): map<seq<bv8>, File>
      reads this, filelist
    {
      Files(List())
    }

    // hashinit.
    constructor ()
      ensures Valid() && Contents() == map[] && fresh(heads) && filelist == null
    {
      filelist := null;
      entrys := 0;
      heads := new int[BUCKETS](_ => -1);
    }

    // filelist_find: the index of the entry, or -1.
    method Find(fname: Name) returns (index: int)
      requires Valid()
      ensures -1 <= index < entrys
      ensures index == -1 <==> Fold(fname) !in Contents()
      ensures index >= 0 ==> Key(List()[index]) == Fold(fname) && Contents()[Fold(fname)] == List()[index].file
    {
      FilesAre(List(), Fold(fname));
      if filelist == null {
        return -1;
      }
      hide Hash, Fold, Files, Linked, DistinctNames, Last;
      index := Walk(fname);
    }

    // Following the chain to the first entry of that name.
    method Walk(fname: Name) returns (index: int)
      requires Valid() && filelist != null
      ensures -1 <= index < entrys
      ensures index >= 0 ==> Key(List()[index]) == Fold(fname)
      ensures index == -1 ==> forall i | 0 <= i < entrys :: Key(List()[i]) != Fold(fname)
    {
      hide Hash, Fold, Linked, DistinctNames, Last;
      ghost var list := List();
      var hash := FileHash(fname);
      index := heads[hash];
      ghost var b := entrys;
      while index != -1
        invariant 0 <= b <= entrys && index == Last(list, hash, b)
        invariant forall i | b <= i < entrys :: Key(list[i]) != Fold(fname)
        decreases index
      {
        NoneBetween(list, hash, fname, b);
        if Fold(filelist[index].file.fn) == Fold(fname) {
          return;
        }
        LinkFollows(list, hash, b);
        b := index;
        index := filelist[index].next;
      }
      NoneBetween(list, hash, fname, b);
    }

    // filelist_add: the entry is put at the end, and at the head of its chain.
    method Add(file: File) returns (index: nat)
      requires Valid() && Fold(file.fn) !in Contents()
      modifies this, filelist, heads
      ensures Valid() && Contents() == old(Contents())[Fold(file.fn) := file]
      ensures index < entrys == old(entrys) + 1 && List()[index].file == file
      ensures filelist == old(filelist) || fresh(filelist)
    {
      hide Hash, Fold, Files;
      ghost var was := List();
      if filelist == null || entrys >= filelist.Length {
        Grow();
      }
      assert List() == was;
      var hash := FileHash(file.fn);
      filelist[entrys] := Entry(file, heads[hash]);
      heads[hash] := entrys;
      entrys := entrys + 1;
      index := entrys - 1;
      Appended(was, Entry(file, Last(was, hash, |was|)));
      assert List() == was + [Entry(file, Last(was, hash, |was|))];
    }

    // The array is replaced by a larger one.
    method Grow()
      requires heads.Length == BUCKETS
      requires (filelist == null ==> entrys == 0) && (filelist != null ==> entrys <= filelist.Length)
      modifies `filelist
      ensures filelist != null && fresh(filelist) && List() == old(List())
      ensures filelist.Length == FILELIST_ADDS + if old(filelist) == null then 0 else old(filelist.Length)
      ensures entrys < filelist.Length || entrys > old(if filelist == null then 0 else filelist.Length)
    {
      var max := if filelist == null then 0 else filelist.Length;
      var grown := new Entry[max + FILELIST_ADDS](_ => EMPTY);
      if filelist != null {
        forall i | 0 <= i < max {
          grown[i] := filelist[i];
        }
      }
      filelist := grown;
    }

    // filelist_modify: the entry of that name is overwritten in place, or added.
    method Modify(file: File) returns (index: nat)
      requires Valid()
      modifies this, filelist, heads
      ensures Valid() && Contents() == old(Contents())[Fold(file.fn) := file]
      ensures index < entrys && List()[index].file == file
      ensures filelist == old(filelist) || fresh(filelist)
    {
      hide Hash, Fold, Files;
      var found := Find(file.fn);
      if found != -1 {
        index := found;
        ghost var was := List();
        var tmp := filelist[index].next;
        filelist[index] := Entry(file, tmp);
        assert List() == was[index := Entry(file, tmp)];
        Replaced(was, index, Entry(file, tmp));
      } else {
        index := Add(file);
      }
    }

    // filelist_compact.
    method Compact()
      requires Valid()
      modifies this
      ensures Valid() && Contents() == old(Contents()) && List() == old(List())
      ensures filelist != null ==> filelist.Length == entrys
      ensures filelist == old(filelist) || fresh(filelist)
    {
      if filelist == null {
        return;
      }
      if entrys < filelist.Length {
        var shrunk := new Entry[entrys](_ => EMPTY);
        forall i | 0 <= i < entrys {
          shrunk[i] := filelist[i];
        }
        filelist := shrunk;
      }
      assert List() == old(List());
    }
  }

  // Between the last entry of a bucket below b and b, nothing has the name.
  lemma NoneBetween(list: seq<Entry>, bucket: nat, fname: Name, b: nat)
    requires b <= |list| && bucket == Hash(fname)
    ensures forall i | Last(list, bucket, b) < i < b :: Key(list[i]) != Fold(fname)
  {
    LastIs(list, bucket, b);
    hide Hash;
    forall i | Last(list, bucket, b) < i < b ensures Key(list[i]) != Fold(fname) {
      if Key(list[i]) == Fold(fname) { HashIgnoresCase(list[i].file.fn, fname); }
    }
  }

  lemma LinkFollows(list: seq<Entry>, bucket: nat, b: nat)
    requires Linked(list) && b <= |list| && Last(list, bucket, b) >= 0
    ensures var i := Last(list, bucket, b); list[i].next == Last(list, bucket, i)
  {
    LastIs(list, bucket, b);
    hide Hash, Last;
    assert LinkedAt(list, Last(list, bucket, b));
  }

  lemma AppendedLinks(list: seq<Entry>, e: Entry)
    requires Linked(list) && e.next == Last(list, Hash(e.file.fn), |list|)
    ensures Linked(list + [e])
  {
    hide Hash, Last;
    var longer := list + [e];
    forall i: nat | i < |longer| ensures LinkedAt(longer, i) {
      assert i < |list| ==> LinkedAt(list, i);
      LastDepends(longer, list, Hash(longer[i].file.fn), i);
    }
  }

  lemma Appended(list: seq<Entry>, e: Entry)
    requires Linked(list) && DistinctNames(list) && Key(e) !in Files(list)
    requires e.next == Last(list, Hash(e.file.fn), |list|)
    ensures Linked(list + [e]) && DistinctNames(list + [e])
    ensures Files(list + [e]) == Files(list)[Key(e) := e.file]
    ensures forall h: nat | h < BUCKETS ::
              Last(list + [e], h, |list| + 1) == if h == Hash(e.file.fn) then |list| else Last(list, h, |list|)
  {
    hide Hash, Key;
    var longer := list + [e];
    forall h: nat | h < BUCKETS
      ensures Last(longer, h, |list| + 1) == if h == Hash(e.file.fn) then |list| else Last(list, h, |list|)
    {
      LastDepends(longer, list, h, |list|);
    }
    hide Last;
    AppendedLinks(list, e);
    FilesAre(list, Key(e));
    assert longer[..|list|] == list;
  }

  lemma Replaced(list: seq<Entry>, i: nat, e: Entry)
    requires Linked(list) && DistinctNames(list) && i < |list|
    requires Key(list[i]) == Key(e) && e.next == list[i].next
    ensures Linked(list[i := e]) && DistinctNames(list[i := e])
    ensures Files(list[i := e]) == Files(list)[Key(e) := e.file]
    ensures forall h: nat, k: nat | h < BUCKETS && k <= |list| :: Last(list[i := e], h, k) == Last(list, h, k)
  {
    hide Hash;
    HashIgnoresCase(list[i].file.fn, e.file.fn);
    var changed := list[i := e];
    hide Last;
    forall h: nat, k: nat | k <= |list| ensures Last(changed, h, k) == Last(list, h, k) {
      LastDepends(changed, list, h, k);
    }
    forall j: nat | j < |list| ensures LinkedAt(changed, j) {
      assert LinkedAt(list, j);
    }
    FilesReplaced(list, i, e);
  }

  // ---------- Runs ----------

  // The map after a run of calls of Modify.
  function Run(files: seq<File>): map<seq<bv8>, File>
  {
    if files == [] then map[] else Run(files[..|files| - 1])[Fold(files[|files| - 1].fn) := files[|files| - 1]]
  }

  // What Find returns is the last file given to Modify under that name.
  lemma {:induction false} LastModifyWins(files: seq<File>, i: nat, key: seq<bv8>)
    requires i < |files| && Fold(files[i].fn) == key
    requires forall j | i < j < |files| :: Fold(files[j].fn) != key
    ensures key in Run(files) && Run(files)[key] == files[i]
    decreases |files|
  {
    hide Fold;
    if i < |files| - 1 { LastModifyWins(files[..|files| - 1], i, key); }
  }

  method Load(files: seq<File>, index: FileIndex)
    requires index.Valid() && index.Contents() == map[]
    modifies index, index.filelist, index.heads
    ensures index.Valid() && index.Contents() == Run(files)
  {
    hide Fold, Files;
    var i := 0;
    while i < |files|
      invariant 0 <= i <= |files| && index.Valid() && index.Contents() == Run(files[..i])
      invariant index.filelist == old(index.filelist) || fresh(index.filelist)
    {
      assert files[..i + 1][..i] == files[..i];
      var _ := index.Modify(files[i]);
      i := i + 1;
    }
    assert files[..|files|] == files;
    index.Compact();
  }
}
