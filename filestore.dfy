/** The file system the caches live in: one cache directory holding named
    files, each with its bytes and its modification time. */
module FileStore {
  import opened Binary
  import opened Outcomes

  /** A file of the cache directory. */
  datatype Entry = Entry(content: Bytes, modified: nat)

  /** The source data path a cache stands for: its file name, and its
      modification time when the file system reports one. */
  datatype Source = Source(name: string, modified: Option<nat>)

  /** A whole-file write (File::create, then write_all). */
  datatype Write = Write(name: string, content: Bytes)

  /** The cache directory's files, by name. */
  type Files = map<string, Entry>

  predicate Distinct<T(==)>(s: seq<T>) {
    forall i, j :: 0 <= i < j < |s| ==> s[i] != s[j]
  }

  /** Three pairwise different values make a sequence without repeats. */
  lemma DistinctThree<T>(s: seq<T>)
    requires |s| == 3 && s[0] != s[1] && s[0] != s[2] && s[1] != s[2]
    ensures Distinct(s)
  {
  }

  function Names(plan: seq<Write>): (r: seq<string>)
    ensures |r| == |plan| && forall i :: 0 <= i < |plan| ==> r[i] == plan[i].name
  {
    seq(|plan|, i requires 0 <= i < |plan| => plan[i].name)
  }

  /** The outcome of File::create: it fails when the directory is missing,
      and when the file system refuses that file (`locked`). */
  function CreateResult(dirExists: bool, locked: set<string>, name: string): Result<()> {
    if !dirExists then Err(NotFound(name))
    else if name in locked then Err(PermissionDenied(name))
    else Ok(())
  }

  /** Opening a file for reading: its bytes, or NotFound. */
  function ReadResult(files: Files, name: string): (r: Result<Bytes>)
    ensures r.Ok? <==> name in files
  {
    if name in files then Ok(files[name].content) else Err(NotFound(name))
  }

  /** The length fs::metadata reports for a file, if it exists. */
  function FileLen(files: Files, name: string): Option<nat> {
    if name in files then Some(|files[name].content|) else None
  }

  /** Every write of the plan gets its file created. */
  predicate AllCreatable(dirExists: bool, locked: set<string>, plan: seq<Write>) {
    forall i :: 0 <= i < |plan| ==> CreateResult(dirExists, locked, plan[i].name).Ok?
  }

  /** The files after the writes of `plan`, in order, at time `now`; a write
      whose create fails leaves the files as they were. */
  function WriteAll(files: Files, dirExists: bool, locked: set<string>, plan: seq<Write>, now: nat): Files {
    if plan == [] then files
    else
      var before := WriteAll(files, dirExists, locked, plan[..|plan| - 1], now);
      var w := plan[|plan| - 1];
      if CreateResult(dirExists, locked, w.name).Ok? then before[w.name := Entry(w.content, now)] else before
  }

  lemma {:induction false} WriteAllConcat(files: Files, dirExists: bool, locked: set<string>, a: seq<Write>, b: seq<Write>, now: nat)
    ensures WriteAll(files, dirExists, locked, a + b, now)
         == WriteAll(WriteAll(files, dirExists, locked, a, now), dirExists, locked, b, now)
  {
    if b == [] {
      assert a + b == a;
    } else {
      assert (a + b)[..|a + b| - 1] == a + b[..|b| - 1];
      WriteAllConcat(files, dirExists, locked, a, b[..|b| - 1], now);
    }
  }

  /** Writing the first `i + 1` writes of a plan is writing the first `i`,
      then write `i`. */
  lemma WriteAllStep(files: Files, dirExists: bool, locked: set<string>, plan: seq<Write>, i: nat, now: nat)
    requires i < |plan|
    ensures WriteAll(files, dirExists, locked, plan[..i + 1], now)
         == WriteAll(WriteAll(files, dirExists, locked, plan[..i], now), dirExists, locked, [plan[i]], now)
  {
    assert plan[..i + 1][..i] == plan[..i];
  }

  /** A file named once in the plan ends up holding what the plan wrote to
      it, provided its create succeeds. */
  lemma {:induction false} WriteAllLookup(files: Files, dirExists: bool, locked: set<string>, plan: seq<Write>, now: nat, i: nat)
    requires i < |plan| && Distinct(Names(plan))
    requires CreateResult(dirExists, locked, plan[i].name).Ok?
    ensures var after := WriteAll(files, dirExists, locked, plan, now);
      plan[i].name in after && after[plan[i].name] == Entry(plan[i].content, now)
  {
    var last := |plan| - 1;
    if i < last {
      var init := plan[..last];
      assert Names(init) == Names(plan)[..last];
      assert init[i] == plan[i];
      WriteAllLookup(files, dirExists, locked, init, now, i);
      assert Names(plan)[i] != Names(plan)[last];
    }
  }

  /** Files the plan does not name are untouched. */
  lemma {:induction false} WriteAllOutside(files: Files, dirExists: bool, locked: set<string>, plan: seq<Write>, now: nat, name: string)
    requires name !in Names(plan)
    ensures var after := WriteAll(files, dirExists, locked, plan, now);
      (name in after <==> name in files) && (name in files ==> after[name] == files[name])
  {
    if plan != [] {
      var init := plan[..|plan| - 1];
      assert forall k :: 0 <= k < |init| ==> Names(init)[k] == Names(plan)[k];
      assert name != Names(plan)[|plan| - 1];
      WriteAllOutside(files, dirExists, locked, init, now, name);
    }
  }

  /** A file the file system refuses to create keeps what it held, however
      often the plan writes to it. */
  lemma {:induction false} WriteAllRefused(files: Files, dirExists: bool, locked: set<string>, plan: seq<Write>, now: nat, name: string)
    requires CreateResult(dirExists, locked, name).Err?
    ensures var after := WriteAll(files, dirExists, locked, plan, now);
      (name in after <==> name in files) && (name in files ==> after[name] == files[name])
  {
    if plan != [] {
      WriteAllRefused(files, dirExists, locked, plan[..|plan| - 1], now, name);
    }
  }

  /** Writing a plan over the files with `name` removed: once the plan has
      created `name` the result is the same as without the removal, and
      otherwise it differs only in lacking `name`. */
  lemma {:induction false} WriteAllAfterRemoval(files: Files, dirExists: bool, locked: set<string>, plan: seq<Write>, now: nat, name: string)
    ensures var with, without := WriteAll(files, dirExists, locked, plan, now), WriteAll(files - {name}, dirExists, locked, plan, now);
      if name in Names(plan) && CreateResult(dirExists, locked, name).Ok? then without == with else without == with - {name}
  {
    if plan != [] {
      var init := plan[..|plan| - 1];
      var w := plan[|plan| - 1];
      assert forall k :: 0 <= k < |init| ==> Names(init)[k] == Names(plan)[k];
      assert name in Names(plan) <==> name in Names(init) || w.name == name;
      WriteAllAfterRemoval(files, dirExists, locked, init, now, name);
      var with', without' := WriteAll(files, dirExists, locked, init, now), WriteAll(files - {name}, dirExists, locked, init, now);
      assert without' - {name} == with' - {name};
      if CreateResult(dirExists, locked, w.name).Ok? {
        var e := Entry(w.content, now);
        if w.name == name {
          assert without'[name := e] == with'[name := e];
        } else if !(name in Names(init) && CreateResult(dirExists, locked, name).Ok?) {
          assert without'[w.name := e] == with'[w.name := e] - {name};
        }
      }
    }
  }

  /** A plan that creates `name` writes the same files whether or not
      `name` was removed first. */
  lemma WriteAllAfterRemove(files: Files, dirExists: bool, locked: set<string>, plan: seq<Write>, now: nat, name: string)
    requires name in Names(plan) && CreateResult(dirExists, locked, name).Ok?
    ensures WriteAll(files - {name}, dirExists, locked, plan, now) == WriteAll(files, dirExists, locked, plan, now)
  {
    WriteAllAfterRemoval(files, dirExists, locked, plan, now, name);
  }

  /** Without the directory every write fails and nothing changes. */
  lemma {:induction false} WriteAllWithoutDirectory(files: Files, locked: set<string>, plan: seq<Write>, now: nat)
    ensures WriteAll(files, false, locked, plan, now) == files
  {
    if plan != [] {
      WriteAllWithoutDirectory(files, locked, plan[..|plan| - 1], now);
    }
  }

  /** The index of the first write of `plan` whose create fails, or |plan|
      when none does. */
  function FirstFailure(dirExists: bool, locked: set<string>, plan: seq<Write>): (k: nat)
    ensures k <= |plan|
    ensures forall i :: 0 <= i < k ==> CreateResult(dirExists, locked, plan[i].name).Ok?
    ensures k < |plan| ==> CreateResult(dirExists, locked, plan[k].name).Err?
  {
    if plan == [] then 0
    else if CreateResult(dirExists, locked, plan[0].name).Err? then 0
    else 1 + FirstFailure(dirExists, locked, plan[1..])
  }

  /** The outcome of writing the plan's files one after another, each step
      returning at its first error (`?`): the first failed create, or Ok. */
  function FirstError(dirExists: bool, locked: set<string>, plan: seq<Write>): (r: Result<()>)
    ensures r.Ok? <==> FirstFailure(dirExists, locked, plan) == |plan|
    ensures r.Ok? <==> AllCreatable(dirExists, locked, plan)
    ensures r.Err? ==> r == CreateResult(dirExists, locked, plan[FirstFailure(dirExists, locked, plan)].name)
  {
    if plan == [] then Ok(())
    else if CreateResult(dirExists, locked, plan[0].name).Err? then CreateResult(dirExists, locked, plan[0].name)
    else
      var r := FirstError(dirExists, locked, plan[1..]);
      assert forall i :: 1 <= i < |plan| ==> plan[1..][i - 1] == plan[i];
      r
  }

  /** A sequence of length three is the display of its elements. */
  lemma ThreeElements<T>(s: seq<T>)
    requires |s| == 3
    ensures s == [s[0], s[1], s[2]]
  {
  }

  /** A plan of three writes fails at its first failed create. */
  lemma FirstOfThree(dirExists: bool, locked: set<string>, a: Write, b: Write, c: Write)
    ensures var ra, rb, rc := CreateResult(dirExists, locked, a.name), CreateResult(dirExists, locked, b.name),
                              CreateResult(dirExists, locked, c.name);
      && FirstError(dirExists, locked, [a, b, c]) == (if ra.Err? then ra else if rb.Err? then rb else rc)
      && FirstFailure(dirExists, locked, [a, b, c]) == (if ra.Err? then 0 else if rb.Err? then 1 else if rc.Err? then 2 else 3)
  {
    assert [a, b, c][1..] == [b, c];
    assert [b, c][1..] == [c];
    assert [c][1..] == [];
    var ra, rb, rc := CreateResult(dirExists, locked, a.name), CreateResult(dirExists, locked, b.name),
                      CreateResult(dirExists, locked, c.name);
    assert FirstError(dirExists, locked, [c]) == rc;
    assert FirstError(dirExists, locked, [b, c]) == if rb.Err? then rb else rc;
    assert FirstFailure(dirExists, locked, [c]) == if rc.Err? then 0 else 1;
    assert FirstFailure(dirExists, locked, [b, c]) == if rb.Err? then 0 else if rc.Err? then 1 else 2;
  }

  /** The directory the caches are written to. */
  class FileSystem {
    var dirExists: bool
    var files: Files
    /** Names whose File::create the file system refuses. */
    const locked: set<string>

    /** A directory that is not there holds no files. */
    predicate Valid()
      reads this
    {
      !dirExists ==> files == map[]
    }

    constructor (dirExists: bool, files: Files, locked: set<string>)
      requires !dirExists ==> files == map[]
      ensures Valid()
      ensures this.dirExists == dirExists && this.files == files && this.locked == locked
    {
      this.dirExists := dirExists;
      this.files := files;
      this.locked := locked;
    }

    /** fs::create_dir_all: the directory exists afterwards, its files kept. */
    method CreateDirAll()
      requires Valid()
      modifies this
      ensures Valid()
      ensures dirExists && files == old(files)
    {
      dirExists := true;
    }

    /** fs::remove_dir_all: the directory and every file in it are gone. */
    method RemoveDirAll()
      requires Valid()
      modifies this
      ensures Valid()
      ensures !dirExists && files == map[]
    {
      dirExists := false;
      files := map[];
    }

    /** File::create followed by writing `content` in full. */
    method Create(name: string, content: Bytes, now: nat) returns (r: Result<()>)
      requires Valid()
      modifies this
      ensures Valid()
      ensures dirExists == old(dirExists)
      ensures r == CreateResult(dirExists, locked, name)
      ensures files == WriteAll(old(files), dirExists, locked, [Write(name, content)], now)
    {
      r := CreateResult(dirExists, locked, name);
      if r.Ok? {
        files := files[name := Entry(content, now)];
      }
      assert [Write(name, content)][..0] == [];
    }

    /** fs::remove_file with its error ignored: the file is gone afterwards,
        whether or not it was there. */
    method Remove(name: string)
      requires Valid()
      modifies this
      ensures Valid()
      ensures dirExists == old(dirExists) && files == old(files) - {name}
    {
      files := files - {name};
    }

    /** File::open and read_to_end through a buffered reader. */
    method Read(name: string) returns (r: Result<Bytes>)
      ensures r == ReadResult(files, name)
    {
      if name in files {
        r := Ok(files[name].content);
      } else {
        r := Err(NotFound(name));
      }
    }

    /** File::open and a read-only memory map of the whole file: the same
        bytes as a read. */
    method Map(name: string) returns (r: Result<Bytes>)
      ensures r == ReadResult(files, name)
    {
      r := Read(name);
    }

    /** fs::read_dir: every file name once, in no particular order. */
    method ReadDir() returns (names: seq<string>)
      ensures Distinct(names)
      ensures forall n :: n in names <==> n in files
    {
      names := [];
      var left := files.Keys;
      while left != {}
        invariant left <= files.Keys
        invariant Distinct(names)
        invariant forall n :: n in names <==> n in files && n !in left
        decreases left
      {
        var n :| n in left;
        names := names + [n];
        left := left - {n};
      }
    }
  }

  /** The index of the last '.' of `s`. */
  function LastDot(s: string): (r: Option<nat>)
    ensures r.None? ==> '.' !in s
    ensures r.Some? ==> r.value < |s| && s[r.value] == '.' && '.' !in s[r.value + 1..]
  {
    if s == [] then None
    else if s[|s| - 1] == '.' then Some(|s| - 1)
    else
      var r := LastDot(s[..|s| - 1]);
      assert s == s[..|s| - 1] + [s[|s| - 1]];
      r
  }

  /** Path::extension of a file name: the text after its last '.', unless
      that dot opens the name (a hidden file) or the name is "..". */
  function Extension(name: string): Option<string> {
    if name == ".." then None
    else
      match LastDot(name)
      case None => None
      case Some(i) => if i == 0 then None else Some(name[i + 1..])
  }

  lemma {:induction false} LastDotOfSuffix(p: string, x: string)
    requires '.' !in x
    ensures LastDot(p + "." + x) == Some(|p|)
    decreases |x|
  {
    var s := p + "." + x;
    if x != [] {
      var init := x[..|x| - 1];
      assert s[..|s| - 1] == p + "." + init;
      LastDotOfSuffix(p, init);
    }
  }

  /** A name `p.x` with a non-empty stem and no dot in `x` has extension `x`. */
  lemma ExtensionOfSuffix(p: string, x: string)
    requires |p| >= 1 && |x| >= 1 && '.' !in x
    ensures Extension(p + "." + x) == Some(x)
  {
    LastDotOfSuffix(p, x);
    assert (p + "." + x)[|p| + 1..] == x;
  }

  /** The first piece of `s` split at '.' (the text before the first dot). */
  function FirstComponent(s: string): (r: string)
    ensures |r| <= |s| && r == s[..|r|] && '.' !in r
    ensures |r| < |s| ==> s[|r|] == '.'
  {
    if s == [] || s[0] == '.' then []
    else [s[0]] + FirstComponent(s[1..])
  }

  /** Text appended after a dot does not change the first piece. */
  lemma {:induction false} FirstComponentOf(a: string, rest: string)
    ensures FirstComponent(a + "." + rest) == FirstComponent(a)
  {
    if a != [] && a[0] != '.' {
      assert (a + "." + rest)[1..] == a[1..] + "." + rest;
      FirstComponentOf(a[1..], rest);
    }
  }

  predicate EndsWith(s: string, suffix: string) {
    |suffix| <= |s| && s[|s| - |suffix|..] == suffix
  }

  /** Whether `p + t` ends with a suffix no longer than `t` depends on `t`
      alone. */
  lemma EndsWithConcat(p: string, t: string, suffix: string)
    requires |suffix| <= |t|
    ensures EndsWith(p + t, suffix) <==> EndsWith(t, suffix)
  {
    assert (p + t)[|p + t| - |suffix|..] == t[|t| - |suffix|..];
  }

  /** Some element of a non-empty set. */
  ghost function Pick(s: set<string>): string
    requires s != {}
  {
    var x :| x in s; x
  }

  /** The total length of the named files. */
  ghost function SizeSum(files: Files, names: set<string>): nat
    requires names <= files.Keys
    decreases names
  {
    if names == {} then 0
    else
      var x := Pick(names);
      |files[x].content| + SizeSum(files, names - {x})
  }

  /** The total does not depend on the order the files are counted in. */
  lemma {:induction false} SizeSumRemove(files: Files, names: set<string>, y: string)
    requires y in names && names <= files.Keys
    ensures SizeSum(files, names) == |files[y].content| + SizeSum(files, names - {y})
    decreases names
  {
    var x := Pick(names);
    if x != y {
      SizeSumRemove(files, names - {x}, y);
      SizeSumRemove(files, names - {y}, x);
      assert names - {x} - {y} == names - {y} - {x};
    }
  }

  /** The listed files whose group under `key` is `g`. */
  ghost function Group(files: Files, seen: seq<string>, key: string -> Option<string>, g: string): set<string> {
    set n | n in seen && n in files && key(n) == Some(g)
  }

  /** The groups of the listed files that `key` puts in a group. */
  function GroupNames(files: Files, seen: seq<string>, key: string -> Option<string>): set<string> {
    set n | n in seen && n in files && key(n).Some? :: key(n).value
  }

  /** Sizes gathered by group: one entry per group met, holding the total
      length of its files met. */
  ghost predicate Gathered(files: Files, seen: seq<string>, key: string -> Option<string>, sizes: map<string, nat>) {
    && sizes.Keys == GroupNames(files, seen, key)
    && forall g :: g in sizes ==> sizes[g] == SizeSum(files, Group(files, seen, key, g))
  }

  /** A file outside every group leaves the gathered sizes as they are. */
  lemma GatherSkip(files: Files, seen: seq<string>, key: string -> Option<string>, name: string, sizes: map<string, nat>)
    requires name in files && key(name).None? && Gathered(files, seen, key, sizes)
    ensures Gathered(files, seen + [name], key, sizes)
  {
    assert GroupNames(files, seen + [name], key) == GroupNames(files, seen, key);
    forall g ensures Group(files, seen + [name], key, g) == Group(files, seen, key, g) {
    }
  }

  /** A grouped file met for the first time adds its length to its group. */
  lemma GatherAdd(files: Files, seen: seq<string>, key: string -> Option<string>, name: string, sizes: map<string, nat>)
    requires name in files && name !in seen && key(name).Some? && Gathered(files, seen, key, sizes)
    ensures var g := key(name).value;
      var before := if g in sizes then sizes[g] else 0;
      Gathered(files, seen + [name], key, sizes[g := before + |files[name].content|])
  {
    var g := key(name).value;
    var group := Group(files, seen, key, g);
    assert GroupNames(files, seen + [name], key) == GroupNames(files, seen, key) + {g};
    assert Group(files, seen + [name], key, g) == group + {name};
    SizeSumRemove(files, group + {name}, name);
    assert group + {name} - {name} == group;
    assert forall n | n in group :: g in GroupNames(files, seen, key);
    forall other | other != g
      ensures Group(files, seen + [name], key, other) == Group(files, seen, key, other)
    {
    }
  }

  /** The total length of the directory's files in group `g`. */
  ghost function GroupSize(files: Files, key: string -> Option<string>, g: string): nat {
    SizeSum(files, set n | n in files && key(n) == Some(g))
  }

  /** The groups of the directory's files. */
  function AllGroupNames(files: Files, key: string -> Option<string>): set<string> {
    set n | n in files && key(n).Some? :: key(n).value
  }

  /** Gathering over a full listing of the directory gathers every group. */
  lemma GatheredAll(files: Files, entries: seq<string>, key: string -> Option<string>, sizes: map<string, nat>)
    requires forall n :: n in entries <==> n in files
    requires Gathered(files, entries, key, sizes)
    ensures sizes.Keys == AllGroupNames(files, key)
    ensures forall g :: g in sizes ==> sizes[g] == GroupSize(files, key, g)
  {
    assert GroupNames(files, entries, key) == AllGroupNames(files, key);
    forall g ensures Group(files, entries, key, g) == set n | n in files && key(n) == Some(g) {
    }
  }

  /** The names in a list of (name, size) pairs. */
  function Listed(info: seq<(string, nat)>): (r: set<string>)
    ensures forall i :: 0 <= i < |info| ==> info[i].0 in r
  {
    if info == [] then {} else Listed(info[..|info| - 1]) + {info[|info| - 1].0}
  }

  lemma ListedSnoc(info: seq<(string, nat)>, x: (string, nat))
    ensures Listed(info + [x]) == Listed(info) + {x.0}
  {
    assert (info + [x])[..|info|] == info;
  }

  /** The names among `names` that `accept` keeps. */
  function Kept(names: seq<string>, accept: string -> bool): set<string> {
    set n | n in names && accept(n)
  }

  lemma KeptSnoc(names: seq<string>, name: string, accept: string -> bool)
    ensures Kept(names + [name], accept) == Kept(names, accept) + (if accept(name) then {name} else {})
  {
  }

  /** Every listed file that `accept` keeps, once each and in listing
      order, with its length cut to 32 bits (`len() as u32`). */
  method FileSizes(files: Files, entries: seq<string>, accept: string -> bool) returns (info: seq<(string, nat)>)
    requires Distinct(entries) && forall n :: n in entries ==> n in files
    ensures Listed(info) == Kept(entries, accept)
    ensures forall i, j :: 0 <= i < j < |info| ==> info[i].0 != info[j].0
    ensures forall i :: 0 <= i < |info| ==>
      info[i].0 in files && accept(info[i].0) && info[i].1 == |files[info[i].0].content| % TWO_TO_THE_32
  {
    info := [];
    for k := 0 to |entries|
      invariant Listed(info) == Kept(entries[..k], accept)
      invariant forall i, j :: 0 <= i < j < |info| ==> info[i].0 != info[j].0
      invariant forall i :: 0 <= i < |info| ==>
        info[i].0 in files && accept(info[i].0) && info[i].1 == |files[info[i].0].content| % TWO_TO_THE_32
    {
      var name := entries[k];
      assert entries[..k + 1] == entries[..k] + [name];
      KeptSnoc(entries[..k], name, accept);
      if accept(name) {
        assert name !in Listed(info);
        var next := info + [(name, |files[name].content| % TWO_TO_THE_32)];
        ListedSnoc(info, (name, |files[name].content| % TWO_TO_THE_32));
        assert next[..|info|] == info;
        info := next;
      }
    }
    assert entries[..|entries|] == entries;
  }
}
