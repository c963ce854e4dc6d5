/** The directory walk of src/lib.rs: `dir_size_histogram` and `traverse_dir`.

    The file system is an input value: a `Dir` is what `read_dir` yields for a
    directory (an error, or its entries in iteration order), and each entry
    carries what `DirEntry::metadata` and `DirEntry::file_type` would answer.
    The concurrent walk spawns one task per entry and one per subdirectory;
    only the multiset of recorded sizes and the multiset of reports passed to
    `on_error` are observable, so the model is a sequential walk that returns
    both (`Outcome`), and the lemmas show that the order in which `read_dir`
    lists the entries does not matter. */
module Traverse {
  import opened Paths
  import opened Wrappers

  /** The `Config` fields the walk reads. `threads` only sizes the thread
      pool, and `on_error` is modelled by the reports the walk returns. */
  datatype Config = Config(oneFileSystem: bool, includeEmpty: bool)

  /** The `io::Error` handed to `on_error`, by the call that failed. */
  datatype Cause =
    | Unsupported   // one-file-system requested on a platform that is not unix
    | RootMetadata  // `std::fs::metadata` of the root
    | ReadDir       // `std::fs::read_dir` of a directory
    | ReadEntry     // an item of the `read_dir` iterator
    | Metadata      // `DirEntry::metadata`
    | FileType      // `DirEntry::file_type`

  /** One call of `on_error`: the path it names and why. */
  datatype Report = Report(path: Path, cause: Cause)

  /** What `read_dir` yields for a directory. */
  datatype Dir = Unopenable | Listing(entries: seq<Listed>)

  /** One item of the `read_dir` iterator. */
  datatype Listed = Unreadable | Ent(node: Node)

  /** A directory entry: its name, what its metadata says (device id, whether
      it is a directory, its length), whether `metadata()` or `file_type()`
      fails on it, and, for a directory, what `read_dir` yields for it. */
  datatype Node = Node(
    name: string,
    dev: nat,
    isDir: bool,
    len: nat,
    metadataFails: bool,
    fileTypeFails: bool,
    contents: Dir)

  /** The four things the walk does with an entry. */
  datatype Decision = Skip | Record(size: nat) | Descend | Fail(cause: Cause)

  /** What a walk observably does: the sizes recorded into the histogram and
      the reports passed to `on_error`. */
  datatype Outcome = Outcome(sizes: multiset<nat>, reports: multiset<Report>)

  function Nothing(): Outcome {
    Outcome(multiset{}, multiset{})
  }

  function Plus(a: Outcome, b: Outcome): Outcome {
    Outcome(a.sizes + b.sizes, a.reports + b.reports)
  }

  /** The entry gets past the type/device step: with one-file-system its
      metadata is readable and on the root's device, otherwise its file type
      is readable. */
  predicate Admitted(n: Node, dev: Option<nat>) {
    match dev
    case Some(d) => !n.metadataFails && n.dev == d
    case None => !n.fileTypeFails
  }

  /** The closure spawned per entry in `traverse_dir`: with an expected device
      the metadata is read first and a foreign device skips the entry; without
      one the file type is read. A directory is descended into; any other
      entry's length (from the metadata already read, or from a fresh
      `metadata()` call) is recorded unless it is zero and empty files are
      excluded. A failing call reports the entry. */
  function Decide(n: Node, includeEmpty: bool, dev: Option<nat>): (r: Decision)
    ensures r.Descend? <==> n.isDir && Admitted(n, dev)
    ensures r.Record? <==> !n.isDir && Admitted(n, dev) && !n.metadataFails && (includeEmpty || n.len != 0)
    ensures r.Record? ==> r.size == n.len
    ensures r.Fail? <==>
      (if dev.Some? then n.metadataFails else n.fileTypeFails || (!n.isDir && n.metadataFails))
    ensures r.Fail? ==> r.cause == (if dev.None? && n.fileTypeFails then FileType else Metadata)
  {
    match dev
    case Some(d) =>
      if n.metadataFails then Fail(Metadata)
      else if n.dev != d then Skip
      else if n.isDir then Descend
      else if n.len == 0 && !includeEmpty then Skip
      else Record(n.len)
    case None =>
      if n.fileTypeFails then Fail(FileType)
      else if n.isDir then Descend
      else if n.metadataFails then Fail(Metadata)
      else if n.len == 0 && !includeEmpty then Skip
      else Record(n.len)
  }

  /** `traverse_dir(path)`: a directory that cannot be opened is reported and
      ends the walk there; otherwise every entry is handled. */
  function Visit(path: Path, d: Dir, cfg: Config, dev: Option<nat>): (r: Outcome)
    ensures forall rep :: rep in r.reports ==> Beneath(path, rep.path)
    decreases d
  {
    match d
    case Unopenable => Outcome(multiset{}, multiset{Report(path, ReadDir)})
    case Listing(es) => Entries(path, es, cfg, dev)
  }

  /** The entries of directory `dir`, in iteration order. */
  function Entries(dir: Path, es: seq<Listed>, cfg: Config, dev: Option<nat>): (r: Outcome)
    ensures forall rep :: rep in r.reports ==> Beneath(dir, rep.path)
    decreases es
  {
    if |es| == 0 then Nothing()
    else Plus(Entries(dir, es[..|es| - 1], cfg, dev), Entry(dir, es[|es| - 1], cfg, dev))
  }

  /** One entry of directory `dir`: an unreadable one is reported against the
      directory; any other follows `Decide`, reporting against the entry's
      own path and descending with the same configuration and device. */
  function Entry(dir: Path, e: Listed, cfg: Config, dev: Option<nat>): (r: Outcome)
    ensures forall rep :: rep in r.reports ==> Beneath(dir, rep.path)
    decreases e
  {
    match e
    case Unreadable => Outcome(multiset{}, multiset{Report(dir, ReadEntry)})
    case Ent(n) =>
      var path := Join(dir, n.name);
      match Decide(n, cfg.includeEmpty, dev)
      case Skip => Nothing()
      case Record(size) => Outcome(multiset{size}, multiset{})
      case Fail(cause) => Outcome(multiset{}, multiset{Report(path, cause)})
      case Descend => Visit(path, n.contents, cfg, dev)
  }

  /** `traverse_dir`: a directory that cannot be listed is reported against
      its path; otherwise its entries are walked. */
  method TraverseDir(path: Path, d: Dir, cfg: Config, dev: Option<nat>) returns (o: Outcome)
    ensures o == Visit(path, d, cfg, dev)
    decreases d
  {
    match d {
      case Unopenable =>
        o := Outcome(multiset{}, multiset{Report(path, ReadDir)});
      case Listing(es) =>
        o := WalkEntries(path, es, cfg, dev);
    }
  }

  /** The `for ent in iter` loop of `traverse_dir`: handle the entries one by
      one, each as its spawned closure does, and add up what they record and
      report. */
  method WalkEntries(dir: Path, es: seq<Listed>, cfg: Config, dev: Option<nat>) returns (o: Outcome)
    ensures o == Entries(dir, es, cfg, dev)
    decreases es
  {
    o := Nothing();
    var i := 0;
    while i < |es|
      invariant 0 <= i <= |es|
      invariant o == Entries(dir, es[..i], cfg, dev)
    {
      EntriesStep(dir, es, i, cfg, dev);
      assert es[i] in es;
      var task := HandleEntry(dir, es[i], cfg, dev);
      o := Plus(o, task);
      i := i + 1;
    }
    assert es[..|es|] == es;
  }

  /** Walking one more entry of a listing adds that entry's contribution. */
  lemma EntriesStep(dir: Path, es: seq<Listed>, i: nat, cfg: Config, dev: Option<nat>)
    requires i < |es|
    ensures Entries(dir, es[..i + 1], cfg, dev) == Plus(Entries(dir, es[..i], cfg, dev), Entry(dir, es[i], cfg, dev))
  {
    assert es[..i + 1][..i] == es[..i];
  }

  /** One item of the iterator of directory `dir`: the loop's error arm for
      an unreadable item, or the closure spawned for an entry. */
  method HandleEntry(dir: Path, e: Listed, cfg: Config, dev: Option<nat>) returns (o: Outcome)
    ensures o == Entry(dir, e, cfg, dev)
    decreases e
  {
    match e {
      case Unreadable =>
        o := Outcome(multiset{}, multiset{Report(dir, ReadEntry)});
      case Ent(n) =>
        var path := Join(dir, n.name);
        match Decide(n, cfg.includeEmpty, dev) {
          case Skip =>
            o := Nothing();
          case Record(size) =>
            o := Outcome(multiset{size}, multiset{});
          case Fail(cause) =>
            o := Outcome(multiset{}, multiset{Report(path, cause)});
          case Descend =>
            o := TraverseDir(path, n.contents, cfg, dev);
        }
    }
  }

  /** The root as `dir_size_histogram` sees it: its path, the device id from
      `std::fs::metadata` (none when that call fails) and what `read_dir`
      yields for it. */
  datatype Root = Root(path: Path, dev: Option<nat>, listing: Dir)

  /** `expect_dev_id`: no filter without one-file-system; with it, the root's
      device on unix, and an error otherwise. */
  function ExpectedDevice(root: Root, cfg: Config, unix: bool): (r: Result<Option<nat>, Cause>)
    ensures r.Err? <==> cfg.oneFileSystem && (!unix || root.dev.None?)
    ensures r.Err? ==> r.error == (if unix then RootMetadata else Unsupported)
    ensures r.Ok? ==> r.value == (if cfg.oneFileSystem then root.dev else None)
  {
    if !cfg.oneFileSystem then Ok(None)
    else if !unix then Err(Unsupported)
    else match root.dev
      case None => Err(RootMetadata)
      case Some(d) => Ok(Some(d))
  }

  /** `dir_size_histogram`: without a usable device filter the error is
      reported against the root and nothing is walked (`Err(())`); otherwise
      the histogram holds exactly the sizes the walk records. */
  method DirSizeHistogram(root: Root, cfg: Config, unix: bool)
    returns (hist: Option<multiset<nat>>, reports: multiset<Report>)
    ensures hist.None? <==> cfg.oneFileSystem && (!unix || root.dev.None?)
    ensures hist.None? ==>
      reports == multiset{Report(root.path, if unix then RootMetadata else Unsupported)}
    ensures hist.Some? ==>
      Outcome(hist.value, reports)
        == Visit(root.path, root.listing, cfg, if cfg.oneFileSystem then root.dev else None)
  {
    match ExpectedDevice(root, cfg, unix) {
      case Err(cause) =>
        hist, reports := None, multiset{Report(root.path, cause)};
      case Ok(dev) =>
        var o := TraverseDir(root.path, root.listing, cfg, dev);
        hist, reports := Some(o.sizes), o.reports;
    }
  }

  // ---------------------------------------------------------------------------
  // Siblings are independent

  lemma PlusAssoc(a: Outcome, b: Outcome, c: Outcome)
    ensures Plus(Plus(a, b), c) == Plus(a, Plus(b, c))
  {
  }

  lemma PlusSwap(a: Outcome, b: Outcome, c: Outcome)
    ensures Plus(Plus(a, b), c) == Plus(Plus(a, c), b)
  {
  }

  /** The entries without the one at `i`. */
  function Without(es: seq<Listed>, i: nat): (r: seq<Listed>)
    requires i < |es|
    ensures |r| + 1 == |es|
  {
    es[..i] + es[i + 1..]
  }

  /** Walking two runs of entries one after the other adds up their outcomes. */
  lemma {:induction false} EntriesAppend(dir: Path, a: seq<Listed>, b: seq<Listed>, cfg: Config, dev: Option<nat>)
    ensures Entries(dir, a + b, cfg, dev) == Plus(Entries(dir, a, cfg, dev), Entries(dir, b, cfg, dev))
    decreases |b|
  {
    if |b| == 0 {
      assert a + b == a;
    } else {
      var b', last := b[..|b| - 1], b[|b| - 1];
      assert (a + b)[..|a + b| - 1] == a + b';
      assert (a + b)[|a + b| - 1] == last;
      EntriesAppend(dir, a, b', cfg, dev);
      PlusAssoc(Entries(dir, a, cfg, dev), Entries(dir, b', cfg, dev), Entry(dir, last, cfg, dev));
    }
  }

  /** Each entry contributes its own outcome, whatever its siblings do: the
      walk of a listing is the walk without entry `i` plus entry `i`. */
  lemma EntryContribution(dir: Path, es: seq<Listed>, i: nat, cfg: Config, dev: Option<nat>)
    requires i < |es|
    ensures Entries(dir, es, cfg, dev)
         == Plus(Entries(dir, Without(es, i), cfg, dev), Entry(dir, es[i], cfg, dev))
  {
    var pre, x, post := es[..i], es[i], es[i + 1..];
    assert es == (pre + [x]) + post;
    EntriesAppend(dir, pre + [x], post, cfg, dev);
    EntriesAppend(dir, pre, [x], cfg, dev);
    EntriesAppend(dir, pre, post, cfg, dev);
    EntriesSingle(dir, x, cfg, dev);
    PlusSwap(Entries(dir, pre, cfg, dev), Entry(dir, x, cfg, dev), Entries(dir, post, cfg, dev));
  }

  lemma EntriesSingle(dir: Path, x: Listed, cfg: Config, dev: Option<nat>)
    ensures Entries(dir, [x], cfg, dev) == Entry(dir, x, cfg, dev)
  {
    assert [x][..0] == [];
  }

  /** The order in which `read_dir` lists the entries does not matter: any
      reordering of a listing yields the same sizes and the same reports. */
  lemma {:induction false} EntriesReorder(dir: Path, a: seq<Listed>, b: seq<Listed>, cfg: Config, dev: Option<nat>)
    requires multiset(a) == multiset(b)
    ensures Entries(dir, a, cfg, dev) == Entries(dir, b, cfg, dev)
    decreases |a|
  {
    if |a| == 0 {
      assert |b| == |multiset(b)| == 0;
    } else {
      var i := RemoveLast(a, b);
      var a', b' := a[..|a| - 1], Without(b, i);
      EntriesReorder(dir, a', b', cfg, dev);
      EntryContribution(dir, b, i, cfg, dev);
      assert Entries(dir, a, cfg, dev) == Plus(Entries(dir, a', cfg, dev), Entry(dir, b[i], cfg, dev));
    }
  }

  /** Where the last entry of `a` sits in its reordering `b`, and what is
      left of both without it. */
  lemma RemoveLast(a: seq<Listed>, b: seq<Listed>) returns (i: nat)
    requires |a| > 0 && multiset(a) == multiset(b)
    ensures i < |b| && b[i] == a[|a| - 1]
    ensures multiset(a[..|a| - 1]) == multiset(Without(b, i))
  {
    var last := a[|a| - 1];
    assert a == a[..|a| - 1] + [last];
    assert last in multiset(b);
    i :| 0 <= i < |b| && b[i] == last;
    assert b == b[..i] + [b[i]] + b[i + 1..];
    assert multiset(b) == multiset(b[..i]) + multiset{last} + multiset(b[i + 1..]);
    assert multiset(Without(b, i)) == multiset(b[..i]) + multiset(b[i + 1..]);
    assert multiset(a[..|a| - 1]) == multiset(a) - multiset{last};
  }

  /** An entry on another device than the root's is skipped entirely: it is
      neither recorded nor walked, and nothing is reported for it. */
  lemma ForeignDeviceSkipped(dir: Path, es: seq<Listed>, i: nat, cfg: Config, d: nat)
    requires i < |es| && es[i].Ent?
    requires !es[i].node.metadataFails && es[i].node.dev != d
    ensures Entries(dir, es, cfg, Some(d)) == Entries(dir, Without(es, i), cfg, Some(d))
  {
    EntryContribution(dir, es, i, cfg, Some(d));
  }

  /** An item the `read_dir` iterator fails on is reported once, against the
      directory, and its siblings are still walked. */
  lemma UnreadableEntryReported(dir: Path, es: seq<Listed>, i: nat, cfg: Config, dev: Option<nat>)
    requires i < |es| && es[i].Unreadable?
    ensures Entries(dir, es, cfg, dev)
         == Plus(Entries(dir, Without(es, i), cfg, dev), Outcome(multiset{}, multiset{Report(dir, ReadEntry)}))
  {
    EntryContribution(dir, es, i, cfg, dev);
  }

  /** An entry whose `metadata()` or `file_type()` fails is reported once,
      against its own path, and records nothing. */
  lemma FailedEntryReported(dir: Path, es: seq<Listed>, i: nat, cfg: Config, dev: Option<nat>)
    requires i < |es| && es[i].Ent?
    requires Decide(es[i].node, cfg.includeEmpty, dev).Fail?
    ensures Entries(dir, es, cfg, dev)
         == Plus(Entries(dir, Without(es, i), cfg, dev),
                 Outcome(multiset{}, multiset{Report(Join(dir, es[i].node.name),
                                                     Decide(es[i].node, cfg.includeEmpty, dev).cause)}))
  {
    EntryContribution(dir, es, i, cfg, dev);
  }

  /** An admitted file is recorded exactly once, with its length, unless it
      is empty and empty files are excluded. */
  lemma FileRecordedOnce(dir: Path, es: seq<Listed>, i: nat, cfg: Config, dev: Option<nat>)
    requires i < |es| && es[i].Ent?
    requires !es[i].node.isDir && Admitted(es[i].node, dev) && !es[i].node.metadataFails
    ensures Entries(dir, es, cfg, dev)
         == Plus(Entries(dir, Without(es, i), cfg, dev),
                 if cfg.includeEmpty || es[i].node.len != 0
                 then Outcome(multiset{es[i].node.len}, multiset{})
                 else Nothing())
  {
    EntryContribution(dir, es, i, cfg, dev);
  }

  /** An admitted directory is walked with the same configuration and the
      same expected device, under its own path. */
  lemma SubdirectoryWalked(dir: Path, es: seq<Listed>, i: nat, cfg: Config, dev: Option<nat>)
    requires i < |es| && es[i].Ent?
    requires es[i].node.isDir && Admitted(es[i].node, dev)
    ensures Entries(dir, es, cfg, dev)
         == Plus(Entries(dir, Without(es, i), cfg, dev),
                 Visit(Join(dir, es[i].node.name), es[i].node.contents, cfg, dev))
  {
    EntryContribution(dir, es, i, cfg, dev);
  }

  /** An admitted directory that cannot be opened yields exactly one report,
      for its own path, and no size. */
  lemma UnopenableSubdirectoryReported(dir: Path, es: seq<Listed>, i: nat, cfg: Config, dev: Option<nat>)
    requires i < |es| && es[i].Ent?
    requires es[i].node.isDir && Admitted(es[i].node, dev) && es[i].node.contents.Unopenable?
    ensures Entries(dir, es, cfg, dev)
         == Plus(Entries(dir, Without(es, i), cfg, dev),
                 Outcome(multiset{}, multiset{Report(Join(dir, es[i].node.name), ReadDir)}))
  {
    SubdirectoryWalked(dir, es, i, cfg, dev);
  }

  // ---------------------------------------------------------------------------
  // The include-empty rule over a whole tree

  /** An outcome with every zero size taken out. */
  function WithoutEmpty(o: Outcome): (r: Outcome)
    ensures r.sizes[0] == 0 && r.reports == o.reports
    ensures forall x :: x != 0 ==> r.sizes[x] == o.sizes[x]
  {
    o.(sizes := o.sizes[0 := 0])
  }

  lemma WithoutEmptySingle(x: nat)
    ensures WithoutEmpty(Outcome(multiset{x}, multiset{}))
         == if x == 0 then Nothing() else Outcome(multiset{x}, multiset{})
  {
    var l := WithoutEmpty(Outcome(multiset{x}, multiset{})).sizes;
    if x == 0 {
      assert l == multiset{};
    } else {
      assert l == multiset{x};
    }
  }

  lemma WithoutEmptyNoSize(o: Outcome)
    requires o.sizes == multiset{}
    ensures WithoutEmpty(o) == o
  {
    assert o.sizes[0 := 0] == multiset{};
  }

  lemma WithoutEmptyPlus(a: Outcome, b: Outcome)
    ensures WithoutEmpty(Plus(a, b)) == Plus(WithoutEmpty(a), WithoutEmpty(b))
  {
    var l, r := WithoutEmpty(Plus(a, b)).sizes, Plus(WithoutEmpty(a), WithoutEmpty(b)).sizes;
    forall x ensures l[x] == r[x] {
    }
    assert l == r;
  }

  /** Excluding empty files changes a walk only by dropping the zero sizes:
      the other sizes and every report are the same as with them included. */
  lemma {:induction false} IncludeEmptyVisit(path: Path, d: Dir, cfg: Config, dev: Option<nat>)
    ensures Visit(path, d, cfg.(includeEmpty := false), dev)
         == WithoutEmpty(Visit(path, d, cfg.(includeEmpty := true), dev))
    decreases d
  {
    match d
    case Unopenable =>
    case Listing(es) => IncludeEmptyEntries(path, es, cfg, dev);
  }

  lemma {:induction false} IncludeEmptyEntries(dir: Path, es: seq<Listed>, cfg: Config, dev: Option<nat>)
    ensures Entries(dir, es, cfg.(includeEmpty := false), dev)
         == WithoutEmpty(Entries(dir, es, cfg.(includeEmpty := true), dev))
    decreases es
  {
    if |es| > 0 {
      var t := cfg.(includeEmpty := true);
      IncludeEmptyEntries(dir, es[..|es| - 1], cfg, dev);
      IncludeEmptyEntry(dir, es[|es| - 1], cfg, dev);
      WithoutEmptyPlus(Entries(dir, es[..|es| - 1], t, dev), Entry(dir, es[|es| - 1], t, dev));
    }
  }

  lemma {:induction false} IncludeEmptyEntry(dir: Path, e: Listed, cfg: Config, dev: Option<nat>)
    ensures Entry(dir, e, cfg.(includeEmpty := false), dev)
         == WithoutEmpty(Entry(dir, e, cfg.(includeEmpty := true), dev))
    decreases e
  {
    if e.Unreadable? {
      WithoutEmptyNoSize(Entry(dir, e, cfg.(includeEmpty := true), dev));
    } else if e.node.isDir && Admitted(e.node, dev) {
      IncludeEmptyDescend(dir, e.node, cfg, dev);
    } else {
      IncludeEmptyLeaf(dir, e.node, cfg, dev);
    }
  }

  lemma {:induction false} IncludeEmptyDescend(dir: Path, n: Node, cfg: Config, dev: Option<nat>)
    requires n.isDir && Admitted(n, dev)
    ensures Entry(dir, Ent(n), cfg.(includeEmpty := false), dev)
         == WithoutEmpty(Entry(dir, Ent(n), cfg.(includeEmpty := true), dev))
    decreases n
  {
    var path := Join(dir, n.name);
    IncludeEmptyVisit(path, n.contents, cfg, dev);
    assert Entry(dir, Ent(n), cfg.(includeEmpty := false), dev)
        == Visit(path, n.contents, cfg.(includeEmpty := false), dev);
    assert Entry(dir, Ent(n), cfg.(includeEmpty := true), dev)
        == Visit(path, n.contents, cfg.(includeEmpty := true), dev);
  }

  lemma IncludeEmptyLeaf(dir: Path, n: Node, cfg: Config, dev: Option<nat>)
    requires !(n.isDir && Admitted(n, dev))
    ensures Entry(dir, Ent(n), cfg.(includeEmpty := false), dev)
         == WithoutEmpty(Entry(dir, Ent(n), cfg.(includeEmpty := true), dev))
  {
    var t := Entry(dir, Ent(n), cfg.(includeEmpty := true), dev);
    var dt := Decide(n, true, dev);
    DecideExcludingEmpty(n, dev);
    if dt.Record? {
      assert t == Outcome(multiset{dt.size}, multiset{});
      WithoutEmptySingle(dt.size);
    } else {
      assert Entry(dir, Ent(n), cfg.(includeEmpty := false), dev) == t;
      WithoutEmptyNoSize(t);
    }
  }

  /** Excluding empty files turns the decision to record a zero size into a
      skip and leaves every other decision as it is. */
  lemma DecideExcludingEmpty(n: Node, dev: Option<nat>)
    ensures Decide(n, false, dev)
         == if Decide(n, true, dev) == Record(0) then Skip else Decide(n, true, dev)
  {
  }

  /** With empty files excluded, no walk ever records a zero size. */
  lemma NoEmptyRecorded(path: Path, d: Dir, cfg: Config, dev: Option<nat>)
    requires !cfg.includeEmpty
    ensures 0 !in Visit(path, d, cfg, dev).sizes
  {
    IncludeEmptyVisit(path, d, cfg, dev);
    assert cfg.(includeEmpty := false) == cfg;
  }
}
