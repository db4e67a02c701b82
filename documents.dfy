/**
 * LDraw documents (ldraw.rs): normalised sub-file names, the splitting of
 * multi-part documents (the MPD extension) into FILE blocks, the source map
 * that holds every parsed file under its normalised name, and the worklist
 * that loads a file and everything it references.
 */
module Documents {
  import opened Wrappers
  import opened Text
  import LDraw
  import Parse

  // ------------------------------------------------------------------
  // Names (ldraw.rs:262-292)
  // ------------------------------------------------------------------

  /** Every '\' replaced by '/'. */
  function ForwardSlashes(s: string): (r: string)
    ensures |r| == |s|
    ensures forall k :: 0 <= k < |s| ==> r[k] == (if s[k] == '\\' then '/' else s[k])
  {
    seq(|s|, k requires 0 <= k < |s| => if s[k] == '\\' then '/' else s[k])
  }

  /**
   * `replace("//", "/")`: one left-to-right pass in which every
   * non-overlapping "//" becomes "/".
   */
  function CollapseDoubleSlashes(s: string): (r: string)
    ensures |r| <= |s|
    ensures s == [] <==> r == []
    ensures r != [] ==> r[0] == s[0]
    decreases |s|
  {
    if |s| >= 2 && s[0] == '/' && s[1] == '/' then ['/'] + CollapseDoubleSlashes(s[2..])
    else if s == [] then []
    else [s[0]] + CollapseDoubleSlashes(s[1..])
  }

  /** What one character of a name becomes: '\\' turns into '/', ASCII letters into lower case. */
  function NormalChar(c: char): char {
    if c == '\\' then '/' else ToAsciiLower(c)
  }

  /**
   * `normalize_subfile_reference` (lower case, then '\\' to '/', then one
   * pass of "//" to "/"), written as a single pass over the name; see
   * NormalizeIsThreePasses for the three passes the source makes.
   */
  function Normalize(s: string): string
    decreases |s|
  {
    if s == [] then []
    else if |s| >= 2 && NormalChar(s[0]) == '/' && NormalChar(s[1]) == '/' then ['/'] + Normalize(s[2..])
    else [NormalChar(s[0])] + Normalize(s[1..])
  }

  /** The character-wise passes, applied to a suffix, give the suffix of the result. */
  lemma CharPassesOfSuffix(s: string, i: nat)
    requires i <= |s|
    ensures ForwardSlashes(ToLower(s[i..])) == ForwardSlashes(ToLower(s))[i..]
    ensures forall k :: 0 <= k < |s| ==> ForwardSlashes(ToLower(s))[k] == NormalChar(s[k])
  {
  }

  /** The single pass is the source's three passes. */
  lemma {:induction false} NormalizeIsThreePasses(s: string)
    ensures Normalize(s) == CollapseDoubleSlashes(ForwardSlashes(ToLower(s)))
    decreases |s|
  {
    var t := ForwardSlashes(ToLower(s));
    CharPassesOfSuffix(s, 0);
    if |s| >= 2 && NormalChar(s[0]) == '/' && NormalChar(s[1]) == '/' {
      CharPassesOfSuffix(s, 2);
      NormalizeIsThreePasses(s[2..]);
    } else if s != [] {
      CharPassesOfSuffix(s, 1);
      NormalizeIsThreePasses(s[1..]);
    }
  }

  /** Collapsing keeps only characters that were there. */
  lemma {:induction false} CollapseKeepsCharacters(s: string)
    ensures forall k :: 0 <= k < |CollapseDoubleSlashes(s)| ==> CollapseDoubleSlashes(s)[k] in s
    decreases |s|
  {
    var r := CollapseDoubleSlashes(s);
    if |s| >= 2 && s[0] == '/' && s[1] == '/' {
      CollapseKeepsCharacters(s[2..]);
      assert forall k :: 1 <= k < |r| ==> r[k] == CollapseDoubleSlashes(s[2..])[k - 1];
    } else if s != [] {
      CollapseKeepsCharacters(s[1..]);
      assert forall k :: 1 <= k < |r| ==> r[k] == CollapseDoubleSlashes(s[1..])[k - 1];
    }
  }

  /** A normal form has no upper-case ASCII letter and no backslash. */
  lemma NormalFormCharacters(s: string)
    ensures forall k :: 0 <= k < |Normalize(s)| ==> Normalize(s)[k] != '\\' && !('A' <= Normalize(s)[k] <= 'Z')
  {
    var slashes := ForwardSlashes(ToLower(s));
    NormalizeIsThreePasses(s);
    CollapseKeepsCharacters(slashes);
    assert forall k :: 0 <= k < |slashes| ==> slashes[k] != '\\' && !('A' <= slashes[k] <= 'Z');
  }

  /** No two slashes in a row. */
  predicate NoDoubleSlash(s: string) {
    forall k :: 0 <= k && k + 1 < |s| ==> !(s[k] == '/' && s[k + 1] == '/')
  }

  /** No three slashes in a row. */
  predicate NoTripleSlash(s: string) {
    forall k :: 0 <= k && k + 2 < |s| ==> !(s[k] == '/' && s[k + 1] == '/' && s[k + 2] == '/')
  }

  /** Text without "//" is left alone. */
  lemma {:induction false} CollapseWithoutDoubles(s: string)
    requires NoDoubleSlash(s)
    ensures CollapseDoubleSlashes(s) == s
    decreases |s|
  {
    if s != [] {
      assert NoDoubleSlash(s[1..]) by {
        forall k | 0 <= k && k + 1 < |s[1..]| ensures !(s[1..][k] == '/' && s[1..][k + 1] == '/') {
          assert s[1..][k] == s[k + 1] && s[1..][k + 1] == s[k + 2];
        }
      }
      CollapseWithoutDoubles(s[1..]);
    }
  }

  /** One pass removes every "//" exactly when no run of three slashes was there. */
  lemma {:induction false} CollapseRemovesDoubles(s: string)
    requires NoTripleSlash(s)
    ensures NoDoubleSlash(CollapseDoubleSlashes(s))
    decreases |s|
  {
    var r := CollapseDoubleSlashes(s);
    if |s| >= 2 && s[0] == '/' && s[1] == '/' {
      var t := s[2..];
      assert NoTripleSlash(t) by {
        forall k | 0 <= k && k + 2 < |t| ensures !(t[k] == '/' && t[k + 1] == '/' && t[k + 2] == '/') {
          assert t[k] == s[k + 2] && t[k + 1] == s[k + 3] && t[k + 2] == s[k + 4];
        }
      }
      CollapseRemovesDoubles(t);
      var c := CollapseDoubleSlashes(t);
      assert r == ['/'] + c;
      assert c != [] ==> c[0] == t[0] && t[0] == s[2] && s[2] != '/';
      forall k | 0 <= k && k + 1 < |r| ensures !(r[k] == '/' && r[k + 1] == '/') {
        if k > 0 { assert r[k] == c[k - 1] && r[k + 1] == c[k]; }
      }
    } else if s != [] {
      var t := s[1..];
      assert NoTripleSlash(t) by {
        forall k | 0 <= k && k + 2 < |t| ensures !(t[k] == '/' && t[k + 1] == '/' && t[k + 2] == '/') {
          assert t[k] == s[k + 1] && t[k + 1] == s[k + 2] && t[k + 2] == s[k + 3];
        }
      }
      CollapseRemovesDoubles(t);
      var c := CollapseDoubleSlashes(t);
      assert r == [s[0]] + c;
      assert c != [] ==> c[0] == t[0] && t[0] == s[1];
      forall k | 0 <= k && k + 1 < |r| ensures !(r[k] == '/' && r[k + 1] == '/') {
        if k > 0 { assert r[k] == c[k - 1] && r[k + 1] == c[k]; }
      }
    }
  }

  /**
   * A normalised name is its own normal form when the name had no run of
   * three slashes after its backslashes were turned around; a longer run
   * survives one pass (see NormalizeTripleSlash).
   */
  lemma {:induction false} NormalizeIdempotent(s: string)
    requires NoTripleSlash(ForwardSlashes(ToLower(s)))
    ensures Normalize(Normalize(s)) == Normalize(s)
  {
    var n := Normalize(s);
    NormalizeIsThreePasses(s);
    NormalizeIsThreePasses(n);
    NormalFormCharacters(s);
    CollapseRemovesDoubles(ForwardSlashes(ToLower(s)));
    assert ToLower(n) == n;
    assert ForwardSlashes(n) == n;
    CollapseWithoutDoubles(n);
  }

  lemma NormalizeTripleSlash()
    ensures Normalize("a///b") == "a//b"
    ensures Normalize("a//b") == "a/b"
  {
    assert Normalize("b") == "b";
    assert Normalize("/b") == "/b";
    assert "a///b"[1..] == "///b" && "///b"[2..] == "/b";
    assert Normalize("///b") == "//b";
    assert "a//b"[1..] == "//b" && "//b"[2..] == "b";
  }

  /** An `LDrawPath`: the name as written; equality and hashing use only its normal form. */
  datatype LDrawPath = LDrawPath(name: string)
  {
    function Normalized(): string {
      Normalize(name)
    }
  }

  /** `PartialEq for LDrawPath`. */
  predicate PathEq(a: LDrawPath, b: LDrawPath) {
    a.Normalized() == b.Normalized()
  }

  /** A name that is already lower case, with forward slashes and no "//", is its own normal form. */
  lemma {:induction false} CanonicalName(s: string)
    requires forall k :: 0 <= k < |s| ==> s[k] != '\\' && !('A' <= s[k] <= 'Z')
    requires NoDoubleSlash(s)
    ensures Normalize(s) == s
    decreases |s|
  {
    if s != [] {
      assert NoDoubleSlash(s[1..]) by {
        forall k | 0 <= k && k + 1 < |s[1..]| ensures !(s[1..][k] == '/' && s[1..][k + 1] == '/') {
          assert s[1..][k] == s[k + 1] && s[1..][k + 1] == s[k + 2];
        }
      }
      CanonicalName(s[1..]);
    }
  }

  lemma PathEqIgnoresSeparators()
    ensures PathEq(LDrawPath("p\\part.dat"), LDrawPath("p/part.dat"))
  {
    var a := "p\\part.dat";
    var b := "p/part.dat";
    assert a[1..] == "\\part.dat" && b[1..] == "/part.dat";
    assert a[2..] == b[2..];
  }

  lemma PathEqIgnoresCase()
    ensures PathEq(LDrawPath("TEST.LDR"), LDrawPath("test.LDR"))
  {
    var a := "TEST.LDR";
    var b := "test.LDR";
    assert a[4..] == b[4..];
    assert Normalize(a[3..]) == Normalize(b[3..]);
    assert Normalize(a[2..]) == Normalize(b[2..]);
    assert Normalize(a[1..]) == Normalize(b[1..]);
  }

  // ------------------------------------------------------------------
  // Multi-part documents (ldraw.rs:354-380)
  // ------------------------------------------------------------------

  /** FILE and NOFILE end a block. */
  predicate IsBlockBoundary(c: LDraw.Command) {
    c.File? || c.NoFile?
  }

  /** The first block boundary at or after `k`, or the end. */
  function NextBoundary(cmds: seq<LDraw.Command>, k: nat): (j: nat)
    requires k <= |cmds|
    ensures k <= j <= |cmds|
    ensures forall i :: k <= i < j ==> !IsBlockBoundary(cmds[i])
    ensures j < |cmds| ==> IsBlockBoundary(cmds[j])
    decreases |cmds| - k
  {
    if k == |cmds| || IsBlockBoundary(cmds[k]) then k else NextBoundary(cmds, k + 1)
  }

  /** Where the block that starts at `i` ends: the next FILE or NOFILE after it, or the end. */
  function BlockEnd(cmds: seq<LDraw.Command>, i: nat): (j: nat)
    requires i < |cmds|
    ensures i < j <= |cmds|
    ensures forall k :: i < k < j ==> !IsBlockBoundary(cmds[k])
    ensures j < |cmds| ==> IsBlockBoundary(cmds[j])
  {
    NextBoundary(cmds, i + 1)
  }

  /** The positions of the FILE commands at or after `from`, in ascending order. */
  function FileStarts(cmds: seq<LDraw.Command>, from: nat): (r: seq<nat>)
    requires from <= |cmds|
    ensures forall k :: 0 <= k < |r| ==> from <= r[k] < |cmds| && cmds[r[k]].File?
    ensures forall k, l :: 0 <= k < l < |r| ==> r[k] < r[l]
    ensures forall i :: from <= i < |cmds| && cmds[i].File? ==> i in r
    decreases |cmds| - from
  {
    if from == |cmds| then []
    else if cmds[from].File? then [from] + FileStarts(cmds, from + 1)
    else FileStarts(cmds, from + 1)
  }

  /** The blocks that start at or after `from`. */
  function SplitFrom(cmds: seq<LDraw.Command>, from: nat): (blocks: seq<(string, LDraw.SourceFile)>)
    requires from <= |cmds|
    ensures |blocks| == |FileStarts(cmds, from)|
    ensures forall k :: 0 <= k < |blocks| ==>
      var i := FileStarts(cmds, from)[k];
      blocks[k] == (cmds[i].file, LDraw.SourceFile(cmds[i..BlockEnd(cmds, i)]))
    decreases |cmds| - from
  {
    if from == |cmds| then []
    else
      var rest := SplitFrom(cmds, from + 1);
      if cmds[from].File? then
        ConsBlock(cmds, from, FileStarts(cmds, from + 1), rest);
        [(cmds[from].file, LDraw.SourceFile(cmds[from..BlockEnd(cmds, from)]))] + rest
      else rest
  }

  /** A block put in front of the blocks of later starts, indexed by the starts with its own in front. */
  lemma ConsBlock(cmds: seq<LDraw.Command>, i: nat, starts: seq<nat>, rest: seq<(string, LDraw.SourceFile)>)
    requires i < |cmds| && cmds[i].File? && |rest| == |starts|
    requires forall k :: 0 <= k < |starts| ==> starts[k] < |cmds| && cmds[starts[k]].File?
    requires forall k :: 0 <= k < |rest| ==>
      rest[k] == (cmds[starts[k]].file, LDraw.SourceFile(cmds[starts[k]..BlockEnd(cmds, starts[k])]))
    ensures forall k :: 0 <= k < |rest| + 1 ==>
      var j := ([i] + starts)[k];
      ([(cmds[i].file, LDraw.SourceFile(cmds[i..BlockEnd(cmds, i)]))] + rest)[k]
        == (cmds[j].file, LDraw.SourceFile(cmds[j..BlockEnd(cmds, j)]))
  {
    var blocks := [(cmds[i].file, LDraw.SourceFile(cmds[i..BlockEnd(cmds, i)]))] + rest;
    forall k | 1 <= k < |blocks|
      ensures blocks[k] == (cmds[([i] + starts)[k]].file,
                            LDraw.SourceFile(cmds[([i] + starts)[k]..BlockEnd(cmds, ([i] + starts)[k])]))
    {
      assert blocks[k] == rest[k - 1] && ([i] + starts)[k] == starts[k - 1];
    }
  }

  /**
   * `split_mpd_file`: one block per FILE command, in order, named by it;
   * each starts at its FILE command and runs up to the next FILE or NOFILE,
   * or to the end.
   */
  function SplitMpdFile(cmds: seq<LDraw.Command>): (blocks: seq<(string, LDraw.SourceFile)>)
    ensures |blocks| == |FileStarts(cmds, 0)|
    ensures forall k :: 0 <= k < |blocks| ==>
      var i := FileStarts(cmds, 0)[k];
      blocks[k] == (cmds[i].file, LDraw.SourceFile(cmds[i..BlockEnd(cmds, i)]))
  {
    SplitFrom(cmds, 0)
  }

  /** Each block starts with its own FILE command and holds no other FILE or NOFILE. */
  lemma BlocksAreDelimited(cmds: seq<LDraw.Command>, k: nat)
    requires k < |SplitMpdFile(cmds)|
    ensures var b := SplitMpdFile(cmds)[k].1.cmds;
      b != [] && b[0] == LDraw.File(SplitMpdFile(cmds)[k].0)
      && forall j :: 0 < j < |b| ==> !IsBlockBoundary(b[j])
  {
    var i := FileStarts(cmds, 0)[k];
    var b := SplitMpdFile(cmds)[k].1.cmds;
    assert b == cmds[i..BlockEnd(cmds, i)];
    assert forall j :: 0 < j < |b| ==> b[j] == cmds[i + j];
  }

  /** A document without FILE commands has no blocks; one that starts with FILE has it as its first block. */
  lemma NoFileNoBlocks(cmds: seq<LDraw.Command>)
    ensures SplitMpdFile(cmds) == [] <==> forall i :: 0 <= i < |cmds| ==> !cmds[i].File?
  {
    if SplitMpdFile(cmds) != [] {
      var i := FileStarts(cmds, 0)[0];
      assert cmds[i].File?;
    }
  }

  // ------------------------------------------------------------------
  // The source map (ldraw.rs:294-352)
  // ------------------------------------------------------------------

  /** A stored file and the name it was first stored under (the map's key). */
  datatype Entry = Entry(path: LDrawPath, file: LDraw.SourceFile)

  /** Every key is the normal form of its entry's name. */
  ghost predicate KeyedByNormalForm(m: map<string, Entry>) {
    forall k | k in m :: m[k].path.Normalized() == k
  }

  /**
   * `HashMap::insert` keyed by an `LDrawPath`: the value is replaced, and a
   * key that was already there keeps the name it was first stored under.
   */
  function Put(m: map<string, Entry>, path: LDrawPath, file: LDraw.SourceFile): (r: map<string, Entry>)
    ensures r.Keys == m.Keys + {path.Normalized()}
    ensures KeyedByNormalForm(m) ==> KeyedByNormalForm(r)
    ensures r[path.Normalized()].file == file
    ensures forall k :: k in m && k != path.Normalized() ==> r[k] == m[k]
  {
    var key := path.Normalized();
    m[key := Entry(if key in m then m[key].path else path, file)]
  }

  /** The blocks stored one after the other, the later ones replacing equal names. */
  function PutBlocks(m: map<string, Entry>, blocks: seq<(string, LDraw.SourceFile)>): (r: map<string, Entry>)
    ensures m.Keys <= r.Keys
    ensures KeyedByNormalForm(m) ==> KeyedByNormalForm(r)
    ensures blocks != [] ==> var key := LDrawPath(blocks[|blocks| - 1].0).Normalized();
      key in r && r[key].file == blocks[|blocks| - 1].1
  {
    if blocks == [] then m
    else
      var init := blocks[..|blocks| - 1];
      var last := blocks[|blocks| - 1];
      Put(PutBlocks(m, init), LDrawPath(last.0), last.1)
  }

  /** Storing one more block of a prefix stores it on top of the shorter prefix. */
  lemma PutBlocksStep(m: map<string, Entry>, blocks: seq<(string, LDraw.SourceFile)>, i: nat)
    requires i < |blocks|
    ensures PutBlocks(m, blocks[..i + 1]) == Put(PutBlocks(m, blocks[..i]), LDrawPath(blocks[i].0), blocks[i].1)
  {
    assert blocks[..i + 1][..i] == blocks[..i];
  }

  /** Every block can be found under its name once they are all stored. */
  lemma {:induction false} PutBlocksStoresAll(m: map<string, Entry>, blocks: seq<(string, LDraw.SourceFile)>)
    ensures forall j :: 0 <= j < |blocks| ==> LDrawPath(blocks[j].0).Normalized() in PutBlocks(m, blocks)
  {
    forall j | 0 <= j < |blocks|
      ensures LDrawPath(blocks[j].0).Normalized() in PutBlocks(m, blocks)
    {
      PutBlocksStores(m, blocks, j, LDrawPath(blocks[j].0).Normalized());
    }
  }

  /** The block at `j` is found under its name `key` once all blocks are stored. */
  lemma {:induction false} PutBlocksStores(m: map<string, Entry>, blocks: seq<(string, LDraw.SourceFile)>, j: nat, key: string)
    requires j < |blocks| && key == LDrawPath(blocks[j].0).Normalized()
    ensures key in PutBlocks(m, blocks)
  {
    if j < |blocks| - 1 {
      var init := blocks[..|blocks| - 1];
      var last := blocks[|blocks| - 1];
      PutBlocksStores(m, init, j, key);
      assert PutBlocks(m, blocks) == Put(PutBlocks(m, init), LDrawPath(last.0), last.1);
    }
  }

  /** Storing the blocks touches no entry whose name none of them shares. */
  lemma {:induction false} PutBlocksElsewhere(m: map<string, Entry>, blocks: seq<(string, LDraw.SourceFile)>, k: string)
    requires k in m
    requires forall j :: 0 <= j < |blocks| ==> LDrawPath(blocks[j].0).Normalized() != k
    ensures PutBlocks(m, blocks)[k] == m[k]
  {
    if blocks != [] {
      PutBlocksElsewhere(m, blocks[..|blocks| - 1], k);
    }
  }

  /** The references in `cmds`, in order. */
  function SubFileRefs(cmds: seq<LDraw.Command>): (r: seq<string>)
    ensures forall x :: x in r <==> exists i :: 0 <= i < |cmds| && cmds[i].SubFileRef? && cmds[i].file == x
  {
    if cmds == [] then []
    else
      var init := cmds[..|cmds| - 1];
      var last := cmds[|cmds| - 1];
      assert forall i :: 0 <= i < |init| ==> init[i] == cmds[i];
      SubFileRefs(init) + (if last.SubFileRef? then [last.file] else [])
  }

  /** The lookup of `SourceMap::get` on the map itself: the entry under the query's normal form. */
  function Find(files: map<string, Entry>, filename: string): (r: Option<Entry>)
    ensures r.Some? <==> Normalize(filename) in files
    ensures r.Some? ==> r.value == files[Normalize(filename)]
  {
    var key := Normalize(filename);
    if key in files then Some(files[key]) else None
  }

  /** A collection of parsed files, each reachable from any name with the same normal form. */
  class SourceMap {
    var files: map<string, Entry>

    ghost predicate Valid()
      reads this
    {
      KeyedByNormalForm(files)
    }

    constructor()
      ensures Valid() && files == map[]
    {
      files := map[];
    }

    /** `SourceMap::get`: the entry stored under a name with the same normal form, if any. */
    function Get(filename: string): (r: Option<Entry>)
      reads this
      requires Valid()
      ensures r.Some? <==> exists e :: e in files.Values && e.path.Normalized() == Normalize(filename)
      ensures r.Some? ==> r.value in files.Values && r.value.path.Normalized() == Normalize(filename)
    {
      Find(files, filename)
    }

    /** The references in `cmds` that have no entry yet, in order. */
    function Unloaded(cmds: seq<LDraw.Command>): (r: seq<string>)
      reads this
      requires Valid()
      ensures forall x :: x in r <==> x in SubFileRefs(cmds) && Get(x).None?
    {
      if cmds == [] then []
      else
        var init := cmds[..|cmds| - 1];
        var last := cmds[|cmds| - 1];
        assert SubFileRefs(cmds) == SubFileRefs(init) + (if last.SubFileRef? then [last.file] else []);
        Unloaded(init) + Missing(last)
    }

    /** The reference `cmd` makes, when it is one and has no entry yet. */
    function Missing(cmd: LDraw.Command): seq<string>
      reads this
      requires Valid()
    {
      if cmd.SubFileRef? && Get(cmd.file).None? then [cmd.file] else []
    }

    /**
     * `SourceMap::insert`: the whole file is stored under its own name,
     * then each FILE block under its FILE name. The answer is the first
     * block's name, or the file's own name when it has no FILE command.
     */
    method Insert(path: LDrawPath, file: LDraw.SourceFile) returns (main: string)
      requires Valid()
      modifies this
      ensures Valid()
      ensures files == PutBlocks(Put(old(files), path, file), SplitMpdFile(file.cmds))
      ensures main == if SplitMpdFile(file.cmds) == [] then path.name else SplitMpdFile(file.cmds)[0].0
    {
      var blocks := SplitMpdFile(file.cmds);
      files := Put(files, path, file);
      ghost var start := files;
      for i := 0 to |blocks|
        invariant files == PutBlocks(start, blocks[..i])
        invariant KeyedByNormalForm(files)
      {
        PutBlocksStep(start, blocks, i);
        files := Put(files, LDrawPath(blocks[i].0), blocks[i].1);
      }
      assert blocks[..|blocks|] == blocks;
      main := if blocks == [] then path.name else blocks[0].0;
    }

    /** The unloaded references of one more command of a prefix. */
    lemma UnloadedStep(cmds: seq<LDraw.Command>, i: nat)
      requires Valid() && i < |cmds|
      ensures Unloaded(cmds[..i + 1]) == Unloaded(cmds[..i]) + Missing(cmds[i])
    {
      assert cmds[..i + 1][..i] == cmds[..i];
    }

    /** `queue_subfiles`: every reference without an entry is pushed, in command order. */
    method QueueSubfiles(file: LDraw.SourceFile, stack: seq<string>) returns (queued: seq<string>)
      requires Valid()
      ensures queued == stack + Unloaded(file.cmds)
    {
      queued := stack;
      for i := 0 to |file.cmds|
        invariant queued == stack + Unloaded(file.cmds[..i])
      {
        var cmd := file.cmds[i];
        UnloadedStep(file.cmds, i);
        if cmd.SubFileRef? && Get(cmd.file).None? {
          queued := queued + [cmd.file];
        }
      }
      assert file.cmds[..|file.cmds|] == file.cmds;
    }
  }

  /**
   * After an insert every block can be found by its name, nothing that was
   * there is lost, and the whole file stays under its own name unless a
   * block shares that name.
   */
  lemma InsertFindsBlocks(m: map<string, Entry>, path: LDrawPath, file: LDraw.SourceFile)
    ensures var r := PutBlocks(Put(m, path, file), SplitMpdFile(file.cmds));
      m.Keys <= r.Keys && path.Normalized() in r
      && (forall j :: 0 <= j < |SplitMpdFile(file.cmds)| ==> LDrawPath(SplitMpdFile(file.cmds)[j].0).Normalized() in r)
      && ((forall j :: 0 <= j < |SplitMpdFile(file.cmds)| ==> LDrawPath(SplitMpdFile(file.cmds)[j].0).Normalized() != path.Normalized())
          ==> r[path.Normalized()].file == file)
  {
    var blocks := SplitMpdFile(file.cmds);
    PutBlocksStoresAll(Put(m, path, file), blocks);
    if forall j :: 0 <= j < |blocks| ==> LDrawPath(blocks[j].0).Normalized() != path.Normalized() {
      PutBlocksElsewhere(Put(m, path, file), blocks, path.Normalized());
    }
  }

  // ------------------------------------------------------------------
  // Loading a document and its references (ldraw.rs:58-108)
  // ------------------------------------------------------------------

  /**
   * What the resolver answers for a normalised name: the bytes it holds,
   * or nothing, which the loader treats as an empty file.
   */
  function Content(resolver: map<string, seq<Byte>>, path: LDrawPath): seq<Byte> {
    if path.Normalized() in resolver then resolver[path.Normalized()] else []
  }

  /** The normalised names `cmds` refers to. */
  ghost function RefNames(cmds: seq<LDraw.Command>): set<string> {
    set i | 0 <= i < |cmds| && cmds[i].SubFileRef? :: Normalize(cmds[i].file)
  }

  /** Every name a file the resolver holds refers to: the names loading can ever reach. */
  ghost function Reachable(resolver: map<string, seq<Byte>>): set<string> {
    set v, n | v in resolver.Values && n in RefNames(Parse.ParseCommands(v)) :: n
  }

  /** An empty file has no commands. */
  lemma EmptyFile()
    ensures Parse.ParseCommands([]) == []
  {
    assert Text.Chars([]) == [];
    assert Parse.Lines([]) == [[]];
    assert Parse.IsBlank([]);
  }

  lemma ContentRefsReachable(resolver: map<string, seq<Byte>>, path: LDrawPath)
    ensures RefNames(Parse.ParseCommands(Content(resolver, path))) <= Reachable(resolver)
  {
    if path.Normalized() !in resolver {
      EmptyFile();
    } else {
      assert Content(resolver, path) in resolver.Values;
    }
  }

  /**
   * `load_file`: resolve the normalised name, parse what comes back (an
   * unresolved name is an empty file, never an error), queue the references
   * that have no entry, and insert the file.
   */
  method LoadFile(path: LDrawPath, resolver: map<string, seq<Byte>>, sm: SourceMap, stack: seq<string>)
    returns (main: string, queued: seq<string>, ghost cmds: seq<LDraw.Command>)
    requires sm.Valid()
    modifies sm
    ensures sm.Valid()
    ensures cmds == Parse.ParseCommands(Content(resolver, path))
    ensures queued == stack + old(sm.Unloaded(cmds))
    ensures sm.files == PutBlocks(Put(old(sm.files), path, LDraw.SourceFile(cmds)), SplitMpdFile(cmds))
    ensures old(sm.files).Keys <= sm.files.Keys && path.Normalized() in sm.files
    ensures main == if SplitMpdFile(cmds) == [] then path.name else SplitMpdFile(cmds)[0].0
  {
    var file := LDraw.SourceFile(Parse.ParseCommands(Content(resolver, path)));
    cmds := file.cmds;
    queued := sm.QueueSubfiles(file, stack);
    main := sm.Insert(path, file);
    InsertFindsBlocks(old(sm.files), path, file);
  }

  /** Loading the root: its references are all accounted for, and the ones queued are reachable. */
  method LoadRoot(path: LDrawPath, resolver: map<string, seq<Byte>>, sm: SourceMap)
    returns (main: string, queued: seq<string>, ghost cmds: seq<LDraw.Command>)
    requires sm.Valid()
    modifies sm
    ensures sm.Valid()
    ensures cmds == Parse.ParseCommands(Content(resolver, path))
    ensures old(sm.files).Keys <= sm.files.Keys && path.Normalized() in sm.files
    ensures Explored(resolver, old(sm.files), sm.files, [path], [cmds], queued)
    ensures main == if SplitMpdFile(cmds) == [] then path.name else SplitMpdFile(cmds)[0].0
  {
    ghost var unloaded := sm.Unloaded(Parse.ParseCommands(Content(resolver, path)));
    main, queued, cmds := LoadFile(path, resolver, sm, []);
    assert queued == unloaded;
    ExploredRoot(resolver, old(sm.files), sm.files, path, cmds, queued);
  }

  /** Growing a set by a member of `u` it lacked shrinks what is left of `u`. */
  lemma RemainingShrinks(u: set<string>, before: set<string>, after: set<string>, x: string)
    requires before <= after && x in u && x !in before && x in after
    ensures |u - after| < |u - before|
  {
    var smaller := (u - before) - {x};
    assert u - after <= smaller;
    SubsetNoLarger(u - after, smaller);
  }

  lemma {:induction false} SubsetNoLarger(a: set<string>, b: set<string>)
    requires a <= b
    ensures |a| <= |b|
    decreases a
  {
    if a != {} {
      var y :| y in a;
      SubsetNoLarger(a - {y}, b - {y});
    }
  }

  /** Every reference of a parsed file either has an entry or is still waiting on the stack. */
  ghost predicate Closed(files: map<string, Entry>, parsed: seq<seq<LDraw.Command>>, stack: seq<string>) {
    forall j, x :: 0 <= j < |parsed| && x in SubFileRefs(parsed[j]) ==> Normalize(x) in files || x in stack
  }

  /** What is left of a stack after its top is popped holds all the rest of it. */
  lemma PopKeeps(full: seq<string>, x: string)
    requires full != [] && x in full
    ensures x in full[..|full| - 1] || x == full[|full| - 1]
  {
    var i :| 0 <= i < |full| && full[i] == x;
    if i < |full| - 1 {
      assert full[..|full| - 1][i] == x;
    }
  }

  /** Popping a name that already has an entry keeps the references accounted for. */
  lemma ClosedAfterPop(files: map<string, Entry>, parsed: seq<seq<LDraw.Command>>, full: seq<string>)
    requires full != [] && Closed(files, parsed, full) && Normalize(full[|full| - 1]) in files
    ensures Closed(files, parsed, full[..|full| - 1])
  {
    forall j, x | 0 <= j < |parsed| && x in SubFileRefs(parsed[j])
      ensures Normalize(x) in files || x in full[..|full| - 1]
    {
      if x in full {
        PopKeeps(full, x);
      }
    }
  }

  /** Loading the popped name, and queueing its references that had no entry, does too. */
  lemma ClosedAfterLoad(files: map<string, Entry>, files': map<string, Entry>, parsed: seq<seq<LDraw.Command>>,
                        full: seq<string>, cmds: seq<LDraw.Command>, queued: seq<string>)
    requires full != [] && Closed(files, parsed, full)
    requires files.Keys <= files'.Keys && Normalize(full[|full| - 1]) in files'
    requires forall x :: x in SubFileRefs(cmds) ==> Normalize(x) in files || x in queued
    ensures Closed(files', parsed + [cmds], full[..|full| - 1] + queued)
  {
    forall j, x | 0 <= j < |parsed + [cmds]| && x in SubFileRefs((parsed + [cmds])[j])
      ensures Normalize(x) in files' || x in full[..|full| - 1] + queued
    {
      if j < |parsed| {
        assert (parsed + [cmds])[j] == parsed[j];
        if x in full {
          PopKeeps(full, x);
        }
      }
    }
  }

  /** The names a file refers to are among those loading can reach. */
  lemma QueuedReachable(resolver: map<string, seq<Byte>>, path: LDrawPath, queued: seq<string>)
    requires forall x :: x in queued ==> x in SubFileRefs(Parse.ParseCommands(Content(resolver, path)))
    ensures forall x :: x in queued ==> Normalize(x) in Reachable(resolver)
  {
    var cmds := Parse.ParseCommands(Content(resolver, path));
    ContentRefsReachable(resolver, path);
    forall x | x in queued ensures Normalize(x) in Reachable(resolver) {
      var i :| 0 <= i < |cmds| && cmds[i].SubFileRef? && cmds[i].file == x;
      assert Normalize(x) in RefNames(cmds);
    }
  }

  /**
   * The names loaded so far, in order, with their commands: each has an
   * entry, none is loaded twice, and none after the root was already present
   * in `files0`.
   */
  ghost predicate Recorded(resolver: map<string, seq<Byte>>, files0: map<string, Entry>, files: map<string, Entry>,
                           loaded: seq<LDrawPath>, parsed: seq<seq<LDraw.Command>>)
  {
    && |loaded| == |parsed| >= 1
    && (forall j :: 0 <= j < |loaded| ==> loaded[j].Normalized() in files)
    && (forall j :: 0 <= j < |loaded| ==> parsed[j] == Parse.ParseCommands(Content(resolver, loaded[j])))
    && (forall j :: 1 <= j < |loaded| ==> loaded[j].Normalized() !in files0)
    && (forall j, k :: 0 <= j < k < |loaded| ==> loaded[j].Normalized() != loaded[k].Normalized())
  }

  /**
   * What the loop of `parse` keeps: the record of loaded names; the stack
   * holds reachable names; and every reference of a loaded file has an
   * entry or waits on the stack.
   */
  ghost predicate Explored(resolver: map<string, seq<Byte>>, files0: map<string, Entry>, files: map<string, Entry>,
                           loaded: seq<LDrawPath>, parsed: seq<seq<LDraw.Command>>, stack: seq<string>)
  {
    && Recorded(resolver, files0, files, loaded, parsed)
    && (forall x :: x in stack ==> Normalize(x) in Reachable(resolver))
    && Closed(files, parsed, stack)
  }

  /** The root alone, just loaded. */
  lemma ExploredRoot(resolver: map<string, seq<Byte>>, files0: map<string, Entry>, files: map<string, Entry>,
                     path: LDrawPath, cmds: seq<LDraw.Command>, queued: seq<string>)
    requires files0.Keys <= files.Keys && path.Normalized() in files
    requires cmds == Parse.ParseCommands(Content(resolver, path))
    requires forall x :: x in SubFileRefs(cmds) ==> Normalize(x) in files0 || x in queued
    requires forall x :: x in queued ==> x in SubFileRefs(cmds)
    ensures Explored(resolver, files0, files, [path], [cmds], queued)
  {
    assert Recorded(resolver, files0, files, [path], [cmds]);
    ClosedRoot(files0, files, cmds, queued);
    QueuedReachable(resolver, path, queued);
  }

  /** The references of the root alone have an entry or are queued. */
  lemma ClosedRoot(files0: map<string, Entry>, files: map<string, Entry>, cmds: seq<LDraw.Command>, queued: seq<string>)
    requires files0.Keys <= files.Keys
    requires forall x :: x in SubFileRefs(cmds) ==> Normalize(x) in files0 || x in queued
    ensures Closed(files, [cmds], queued)
  {
    forall j, x | 0 <= j < 1 && x in SubFileRefs([cmds][j]) ensures Normalize(x) in files || x in queued {
      assert [cmds][j] == cmds;
    }
  }

  /** Popping a name that already has an entry. */
  lemma ExploredAfterPop(resolver: map<string, seq<Byte>>, files0: map<string, Entry>, files: map<string, Entry>,
                         loaded: seq<LDrawPath>, parsed: seq<seq<LDraw.Command>>, full: seq<string>)
    requires full != [] && Explored(resolver, files0, files, loaded, parsed, full)
    requires Normalize(full[|full| - 1]) in files
    ensures Explored(resolver, files0, files, loaded, parsed, full[..|full| - 1])
  {
    ClosedAfterPop(files, parsed, full);
    forall x | x in full[..|full| - 1] ensures Normalize(x) in Reachable(resolver) {
      assert x in full;
    }
  }

  /** Recording a name that had no entry and now has one. */
  lemma RecordedAfterLoad(resolver: map<string, seq<Byte>>, files0: map<string, Entry>, files: map<string, Entry>,
                          files': map<string, Entry>, loaded: seq<LDrawPath>, parsed: seq<seq<LDraw.Command>>,
                          path: LDrawPath, cmds: seq<LDraw.Command>)
    requires Recorded(resolver, files0, files, loaded, parsed)
    requires files0.Keys <= files.Keys <= files'.Keys
    requires path.Normalized() !in files && path.Normalized() in files'
    requires cmds == Parse.ParseCommands(Content(resolver, path))
    ensures Recorded(resolver, files0, files', loaded + [path], parsed + [cmds])
  {
    NamesAfterLoad(files0, files, files', loaded, path);
    var loaded', parsed' := loaded + [path], parsed + [cmds];
    forall j | 0 <= j < |loaded'| ensures parsed'[j] == Parse.ParseCommands(Content(resolver, loaded'[j])) {
      if j < |loaded| {
        assert loaded'[j] == loaded[j] && parsed'[j] == parsed[j];
      }
    }
  }

  /** The name facts of `Recorded` after appending a name that had no entry. */
  lemma NamesAfterLoad(files0: map<string, Entry>, files: map<string, Entry>, files': map<string, Entry>,
                       loaded: seq<LDrawPath>, path: LDrawPath)
    requires forall j :: 0 <= j < |loaded| ==> loaded[j].Normalized() in files
    requires forall j :: 1 <= j < |loaded| ==> loaded[j].Normalized() !in files0
    requires forall j, k :: 0 <= j < k < |loaded| ==> loaded[j].Normalized() != loaded[k].Normalized()
    requires |loaded| >= 1 && files0.Keys <= files.Keys <= files'.Keys
    requires path.Normalized() !in files && path.Normalized() in files'
    ensures forall j :: 0 <= j < |loaded| + 1 ==> (loaded + [path])[j].Normalized() in files'
    ensures forall j :: 1 <= j < |loaded| + 1 ==> (loaded + [path])[j].Normalized() !in files0
    ensures forall j, k :: 0 <= j < k < |loaded| + 1 ==> (loaded + [path])[j].Normalized() != (loaded + [path])[k].Normalized()
  {
    var loaded' := loaded + [path];
    forall j | 0 <= j < |loaded'| ensures loaded'[j].Normalized() in files' {
      if j < |loaded| {
        assert loaded'[j] == loaded[j];
      }
    }
    forall j | 1 <= j < |loaded'| ensures loaded'[j].Normalized() !in files0 {
      if j < |loaded| {
        assert loaded'[j] == loaded[j];
      }
    }
    forall j, k | 0 <= j < k < |loaded'| ensures loaded'[j].Normalized() != loaded'[k].Normalized() {
      assert loaded'[j] == loaded[j];
      if k < |loaded| {
        assert loaded'[k] == loaded[k];
      }
    }
  }

  /** Popping a name without an entry, loading it, and pushing its unloaded references. */
  lemma ExploredAfterLoad(resolver: map<string, seq<Byte>>, files0: map<string, Entry>, files: map<string, Entry>,
                          files': map<string, Entry>, loaded: seq<LDrawPath>, parsed: seq<seq<LDraw.Command>>,
                          full: seq<string>, cmds: seq<LDraw.Command>, queued: seq<string>)
    requires full != [] && Explored(resolver, files0, files, loaded, parsed, full)
    requires files0.Keys <= files.Keys <= files'.Keys
    requires Normalize(full[|full| - 1]) !in files && Normalize(full[|full| - 1]) in files'
    requires cmds == Parse.ParseCommands(Content(resolver, LDrawPath(full[|full| - 1])))
    requires forall x :: x in SubFileRefs(cmds) ==> Normalize(x) in files || x in queued
    requires forall x :: x in queued ==> x in SubFileRefs(cmds)
    ensures Explored(resolver, files0, files', loaded + [LDrawPath(full[|full| - 1])], parsed + [cmds],
                     full[..|full| - 1] + queued)
  {
    var f := full[|full| - 1];
    RecordedAfterLoad(resolver, files0, files, files', loaded, parsed, LDrawPath(f), cmds);
    ClosedAfterLoad(files, files', parsed, full, cmds, queued);
    QueuedReachable(resolver, LDrawPath(f), queued);
    forall x | x in full[..|full| - 1] + queued ensures Normalize(x) in Reachable(resolver) {
      if x !in queued {
        assert x in full;
      }
    }
  }

  /**
   * One turn of the loop of `parse`: pop a name and, when it has no entry
   * yet, load it and push its references that have none. Either a name of
   * `universe` gains an entry or the map stays as it was and the stack shrinks.
   */
  method PopStack(resolver: map<string, seq<Byte>>, sm: SourceMap, stack: seq<string>, ghost files0: map<string, Entry>,
                  ghost loaded: seq<LDrawPath>, ghost parsed: seq<seq<LDraw.Command>>, ghost universe: set<string>)
    returns (stack': seq<string>, ghost loaded': seq<LDrawPath>, ghost parsed': seq<seq<LDraw.Command>>)
    requires sm.Valid() && stack != [] && files0.Keys <= sm.files.Keys && universe == Reachable(resolver)
    requires Explored(resolver, files0, sm.files, loaded, parsed, stack)
    modifies sm
    ensures sm.Valid() && old(sm.files).Keys <= sm.files.Keys
    ensures |loaded'| >= |loaded| && loaded'[0] == loaded[0]
    ensures Explored(resolver, files0, sm.files, loaded', parsed', stack')
    ensures |universe - sm.files.Keys| < |universe - old(sm.files).Keys|
            || (sm.files == old(sm.files) && |stack'| < |stack|)
  {
    var filename := stack[|stack| - 1];
    stack' := stack[..|stack| - 1];
    if sm.Get(filename).None? {
      ghost var cmds := Parse.ParseCommands(Content(resolver, LDrawPath(filename)));
      ghost var queued := sm.Unloaded(cmds);
      var ignored;
      ignored, stack', cmds := LoadFile(LDrawPath(filename), resolver, sm, stack');
      ExploredAfterLoad(resolver, files0, old(sm.files), sm.files, loaded, parsed, stack, cmds, queued);
      RemainingShrinks(universe, old(sm.files).Keys, sm.files.Keys, Normalize(filename));
      loaded', parsed' := loaded + [LDrawPath(filename)], parsed + [cmds];
    } else {
      ExploredAfterPop(resolver, files0, sm.files, loaded, parsed, stack);
      loaded', parsed' := loaded, parsed;
    }
  }

  /**
   * The loop of `parse`: pop names off the stack until it is empty, loading
   * each one that has no entry yet. `loaded` and `parsed` record, in order,
   * the names loaded so far and their commands; `files0` is the map before
   * the root was loaded.
   */
  method Drain(resolver: map<string, seq<Byte>>, sm: SourceMap, stack0: seq<string>, ghost files0: map<string, Entry>,
               ghost loaded0: seq<LDrawPath>, ghost parsed0: seq<seq<LDraw.Command>>)
    returns (ghost loaded: seq<LDrawPath>, ghost parsed: seq<seq<LDraw.Command>>)
    requires sm.Valid() && files0.Keys <= sm.files.Keys
    requires Explored(resolver, files0, sm.files, loaded0, parsed0, stack0)
    modifies sm
    ensures sm.Valid() && old(sm.files).Keys <= sm.files.Keys
    ensures |loaded| >= |loaded0| && loaded[0] == loaded0[0]
    ensures Explored(resolver, files0, sm.files, loaded, parsed, [])
  {
    var stack := stack0;
    loaded, parsed := loaded0, parsed0;
    ghost var universe := Reachable(resolver);
    while stack != []
      invariant sm.Valid()
      invariant files0.Keys <= old(sm.files).Keys <= sm.files.Keys
      invariant |loaded| >= |loaded0| && loaded[0] == loaded0[0]
      invariant Explored(resolver, files0, sm.files, loaded, parsed, stack)
      decreases |universe - sm.files.Keys|, |stack|
    {
      stack, loaded, parsed := PopStack(resolver, sm, stack, files0, loaded, parsed, universe);
    }
  }

  /**
   * `parse`: load the root file, then drain the stack of names it refers
   * to. Besides the map and the root's name, the ghost results record the
   * names loaded, in order, and their commands: no name is loaded twice,
   * and in the end every reference of every loaded file has an entry.
   */
  method ParseDocument(path: string, resolver: map<string, seq<Byte>>, sm: SourceMap)
    returns (root: string, ghost loaded: seq<LDrawPath>, ghost parsed: seq<seq<LDraw.Command>>)
    requires sm.Valid()
    modifies sm
    ensures sm.Valid()
    ensures old(sm.files).Keys <= sm.files.Keys
    ensures |loaded| == |parsed| >= 1 && loaded[0] == LDrawPath(path)
    ensures forall j :: 0 <= j < |loaded| ==> loaded[j].Normalized() in sm.files
    ensures forall j :: 0 <= j < |loaded| ==> parsed[j] == Parse.ParseCommands(Content(resolver, loaded[j]))
    ensures forall j :: 1 <= j < |loaded| ==> loaded[j].Normalized() !in old(sm.files)
    ensures forall j, k :: 0 <= j < k < |loaded| ==> loaded[j].Normalized() != loaded[k].Normalized()
    ensures forall j, x :: 0 <= j < |parsed| && x in SubFileRefs(parsed[j]) ==> Normalize(x) in sm.files
  {
    ghost var cmds0;
    var stack;
    root, stack, cmds0 := LoadRoot(LDrawPath(path), resolver, sm);
    loaded, parsed := Drain(resolver, sm, stack, old(sm.files), [LDrawPath(path)], [cmds0]);
    ExploredDone(resolver, old(sm.files), sm.files, loaded, parsed);
  }

  /** With the stack empty, every reference of a loaded file has an entry. */
  lemma ExploredDone(resolver: map<string, seq<Byte>>, files0: map<string, Entry>, files: map<string, Entry>,
                     loaded: seq<LDrawPath>, parsed: seq<seq<LDraw.Command>>)
    requires Explored(resolver, files0, files, loaded, parsed, [])
    ensures |loaded| == |parsed| >= 1
    ensures forall j :: 0 <= j < |loaded| ==> loaded[j].Normalized() in files
    ensures forall j :: 0 <= j < |loaded| ==> parsed[j] == Parse.ParseCommands(Content(resolver, loaded[j]))
    ensures forall j :: 1 <= j < |loaded| ==> loaded[j].Normalized() !in files0
    ensures forall j, k :: 0 <= j < k < |loaded| ==> loaded[j].Normalized() != loaded[k].Normalized()
    ensures forall j, x :: 0 <= j < |parsed| && x in SubFileRefs(parsed[j]) ==> Normalize(x) in files
  {
  }
}
