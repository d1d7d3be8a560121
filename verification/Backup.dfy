/** Backup and restore: core/src/backup/backup-service.ts over an abstract file system. What the
    outside world contributes (git, tar, the YAML parser, the clock) comes in as parameters. */
module Backup {
  import opened Optional
  import opened FileTree

  type Path = seq<string>

  datatype Node = Dir | File(content: string) | Tarball(name: string, tree: map<Path, Node>)

  type Fs = map<Path, Node>

  // ----- storage configuration

  datatype Place = Absolute(path: Path) | Relative(path: Path)

  datatype Provider = Provider(kind: string, path: Option<Place>)

  datatype StorageConfig = StorageConfig(activeProvider: Option<string>, providers: map<string, Provider>, backend: Option<Provider>)

  datatype Loaded = Missing | Broken | Config(config: StorageConfig)

  type Yaml = string -> Option<StorageConfig>

  function LoadStorageConfig(fs: Fs, systemDataDir: Path, yaml: Yaml): Loaded {
    var p := systemDataDir + ["storage.yml"];
    if p !in fs then Missing
    else if !fs[p].File? || yaml(fs[p].content).None? then Broken
    else Config(yaml(fs[p].content).value)
  }

  /** The active provider, or the legacy backend. */
  function ActiveProvider(c: StorageConfig): Option<Provider> {
    var name := c.activeProvider.GetOr("local");
    if name in c.providers then Some(c.providers[name]) else c.backend
  }

  function ProviderPath(systemDataDir: Path, provider: Provider): Path {
    match provider.path.GetOr(Relative(["storage"]))
    case Absolute(p) => p
    case Relative(p) => systemDataDir + p
  }

  /** Where the active provider keeps its files, if it is local. */
  function LocalPath(c: StorageConfig, systemDataDir: Path): Option<Path> {
    var provider := ActiveProvider(c);
    if provider.Some? && provider.value.kind == "local" then Some(ProviderPath(systemDataDir, provider.value)) else None
  }

  function LocalStorage(fs: Fs, systemDataDir: Path, yaml: Yaml): Option<Path> {
    var loaded := LoadStorageConfig(fs, systemDataDir, yaml);
    if loaded.Config? then LocalPath(loaded.config, systemDataDir) else None
  }

  /** The entry under the active provider's name, `local` unless set, or else the legacy backend. */
  predicate Chosen(c: StorageConfig, provider: Provider) {
    var name := if c.activeProvider.Some? then c.activeProvider.value else "local";
    if name in c.providers then c.providers[name] == provider else c.backend == Some(provider)
  }

  /** A local provider keeps its files at its own path, taken from the system directory unless it
      is absolute; without a path, in `storage` there. */
  predicate KeepsAt(provider: Provider, systemDataDir: Path, p: Path) {
    && provider.kind == "local"
    && match provider.path
       case None => p == systemDataDir + ["storage"]
       case Some(Absolute(q)) => p == q
       case Some(Relative(q)) => p == systemDataDir + q
  }

  lemma LocalPathIff(c: StorageConfig, systemDataDir: Path, p: Path)
    ensures LocalPath(c, systemDataDir) == Some(p) <==>
            exists provider :: Chosen(c, provider) && KeepsAt(provider, systemDataDir, p)
  {
    if LocalPath(c, systemDataDir) == Some(p) {
      var provider := ActiveProvider(c).value;
      assert Chosen(c, provider) && KeepsAt(provider, systemDataDir, p);
    }
  }

  // ----- creating

  datatype CreateOptions = CreateOptions(
    dataDir: Path, outputDir: Path, timestamp: string, systemDataDir: Path,
    includeStorage: bool, includeGitBundle: bool, compress: bool)

  /** The git bundle if git makes one, the texts that are written, the exported table if there is
      a database, whether tar works, and the YAML parser. */
  datatype CreateWorld = CreateWorld(
    bundle: Option<string>, minimalConfig: string, storageFiles: Option<string>, metadata: string, tarWorks: bool, yaml: Yaml)

  function BackupDir(o: CreateOptions): Path {
    o.outputDir + [o.timestamp]
  }

  function TarballOf(dir: Path): Path
    requires dir != []
  {
    dir[..|dir| - 1] + [dir[|dir| - 1] + ".tar.gz"]
  }

  function Write(fs: Fs, p: Path, node: Node): Fs {
    Graft(fs, p, map[[] := node])
  }

  function WithData(o: CreateOptions, fs: Fs): Fs {
    var made := Mkdir(fs, BackupDir(o), Dir);
    Graft(made, BackupDir(o) + ["data"], Sub(made, o.dataDir))
  }

  function WithBundle(o: CreateOptions, w: CreateWorld, fs: Fs): Fs {
    if !o.includeGitBundle || o.dataDir + [".git"] !in fs then fs
    else
      var made := Mkdir(fs, BackupDir(o) + ["git"], Dir);
      if w.bundle.None? then made else Write(made, BackupDir(o) + ["git"] + ["data.bundle"], File(w.bundle.value))
  }

  /** The files of a local provider, if its directory exists. */
  function WithStorageFiles(o: CreateOptions, storage: Option<Path>, fs: Fs): Fs {
    if storage.None? || storage.value !in fs then fs
    else
      var made := Mkdir(fs, BackupDir(o) + ["storage"], Dir);
      Graft(made, BackupDir(o) + ["storage"], Sub(made, storage.value))
  }

  function WithStorage(o: CreateOptions, w: CreateWorld, fs: Fs): Fs {
    if !o.includeStorage || !LoadStorageConfig(fs, o.systemDataDir, w.yaml).Config? then fs
    else
      var copied := WithStorageFiles(o, LocalStorage(fs, o.systemDataDir, w.yaml), fs);
      Write(copied, BackupDir(o) + ["storage-config.json"], File(w.minimalConfig))
  }

  function WithTexts(o: CreateOptions, w: CreateWorld, fs: Fs): Fs {
    var fs1 := if w.storageFiles.Some?
               then Write(fs, BackupDir(o) + ["storage-files.json"], File(w.storageFiles.value)) else fs;
    Write(fs1, BackupDir(o) + ["metadata.json"], File(w.metadata))
  }

  function WithTarball(o: CreateOptions, w: CreateWorld, fs: Fs): Fs {
    if !o.compress || !w.tarWorks then fs
    else Write(fs, TarballOf(BackupDir(o)), Tarball(o.timestamp, Sub(fs, BackupDir(o))))
  }

  /** The file system afterwards, and whether the backup was created. */
  function CreateBackup(o: CreateOptions, w: CreateWorld, fs: Fs): (Fs, bool) {
    if o.dataDir !in Mkdir(fs, BackupDir(o), Dir) then (Mkdir(fs, BackupDir(o), Dir), false)
    else (WithTarball(o, w, WithTexts(o, w, WithStorage(o, w, WithBundle(o, w, WithData(o, fs))))), true)
  }

  // ----- restoring

  datatype RestoreOptions = RestoreOptions(
    backupDir: Path, dataDir: Path, systemDataDir: Path, restoreStorage: bool, overwrite: bool)

  /** A fresh directory for extraction, the git directory of the clone if cloning works, and the
      YAML parser. */
  datatype RestoreWorld = RestoreWorld(temp: Path, clone: Option<map<Path, Node>>, yaml: Yaml)

  function Parent(d: Path): Path {
    if d == [] then [] else d[..|d| - 1]
  }

  datatype Source = NoSource | At(dir: Path, fs: Fs, extracted: bool)

  predicate NamesTarball(d: Path) {
    d != [] && |d[|d| - 1]| >= 7 && d[|d| - 1][|d[|d| - 1]| - 7..] == ".tar.gz"
  }

  function TarballPath(d: Path): Path {
    if d == [] || NamesTarball(d) then d else TarballOf(d)
  }

  /** The backup, extracted if there is a tarball, which takes precedence over a directory. */
  function Open(o: RestoreOptions, w: RestoreWorld, fs: Fs): Source {
    var tarball := TarballPath(o.backupDir);
    if tarball in fs then
      match fs[tarball]
      case Tarball(name, tree) => At(w.temp + [name], Graft(Mkdir(fs, w.temp, Dir), w.temp + [name], tree), true)
      case _ => NoSource
    else if o.backupDir !in fs then NoSource
    else At(o.backupDir, fs, false)
  }

  /** Replaces what lies at `to` by a copy of what lies at `from`. */
  function Replaced(fs: Fs, from: Path, to: Path): Fs {
    var cleared := if to in fs then Remove(fs, to) else fs;
    var made := Mkdir(cleared, Parent(to), Dir);
    Graft(made, to, Sub(made, from))
  }

  function GitRestored(o: RestoreOptions, w: RestoreWorld, src: Path, fs: Fs): Fs {
    if src + ["git"] + ["data.bundle"] !in fs then fs
    else
      var cleared := Remove(Remove(fs, o.dataDir + [".git"]), Parent(o.dataDir) + [".temp-git-restore"]);
      if w.clone.None? then cleared else Graft(cleared, o.dataDir + [".git"], w.clone.value)
  }

  function DataRestored(o: RestoreOptions, w: RestoreWorld, src: Path, fs: Fs): Fs {
    GitRestored(o, w, src, Replaced(fs, src + ["data"], o.dataDir))
  }

  function StorageTarget(o: RestoreOptions, w: RestoreWorld, fs: Fs): Path {
    LocalStorage(fs, o.systemDataDir, w.yaml).GetOr(o.systemDataDir + ["storage"])
  }

  /** The second component is false when the storage configuration cannot be read. */
  function StorageRestored(o: RestoreOptions, w: RestoreWorld, src: Path, fs: Fs): (Fs, bool) {
    if !o.restoreStorage || src + ["storage"] !in fs then (fs, true)
    else if LoadStorageConfig(fs, o.systemDataDir, w.yaml).Broken? then (fs, false)
    else
      var to := StorageTarget(o, w, fs);
      if to in fs && !o.overwrite then (fs, true) else (Replaced(fs, src + ["storage"], to), true)
  }

  /** The file system afterwards, and whether the restore went through. */
  function RestoreBackup(o: RestoreOptions, w: RestoreWorld, fs: Fs): (Fs, bool) {
    match Open(o, w, fs)
    case NoSource => (fs, false)
    case At(src, fs1, extracted) =>
      if src + ["data"] !in fs1 then (fs1, false)
      else if o.dataDir in fs1 && !o.overwrite then (fs1, false)
      else
        var stored := StorageRestored(o, w, src, DataRestored(o, w, src, fs1));
        if !stored.1 then stored
        else (if extracted then Remove(stored.0, w.temp) else stored.0, true)
  }

  // ----- places that do not meet

  lemma ApartChild(d: Path, e: Path, r: Path)
    requires Apart(d, e)
    ensures Apart(d, e + r) && Apart(e + r, d)
  {
    ApartBelow(d, e, r);
    assert (e + r)[..|e|] == e;
  }

  lemma SiblingsApart(b: Path, x: string, y: string, r: Path)
    requires x != y
    ensures Apart(b + [x], b + [y] + r) && Apart(b + [y] + r, b + [x])
  {
    assert (b + [x])[|b|] == x && (b + [y] + r)[|b|] == y;
  }

  lemma WriteElsewhere(fs: Fs, p: Path, node: Node, e: Path)
    requires Apart(p, e)
    ensures Sub(Write(fs, p, node), e) == Sub(fs, e)
  {
    SubOfGraftElsewhere(fs, p, map[[] := node], e);
  }

  lemma NothingBelow(fs: Fs, d: Path, r: Path)
    requires Sub(fs, d) == map[]
    ensures Sub(fs, d + r) == map[]
  {
    SubOfSub(fs, d, r);
  }

  lemma ConfigOnlyReadsItsFile(fs: Fs, fs': Fs, systemDataDir: Path, yaml: Yaml)
    requires Sub(fs, systemDataDir + ["storage.yml"]) == Sub(fs', systemDataDir + ["storage.yml"])
    ensures LoadStorageConfig(fs, systemDataDir, yaml) == LoadStorageConfig(fs', systemDataDir, yaml)
  {
    var p := systemDataDir + ["storage.yml"];
    SubAt(fs, p, []);
    SubAt(fs', p, []);
    assert p + [] == p;
  }

  // ----- what a backup holds

  /** A new backup directory, apart from what it backs up and from its own tarball. */
  ghost predicate FreshBackup(o: CreateOptions, w: CreateWorld, fs: Fs) {
    var b, storage := BackupDir(o), LocalStorage(fs, o.systemDataDir, w.yaml);
    && o.dataDir in fs && Sub(fs, b) == map[] && TarballOf(b) !in fs
    && Apart(b, o.dataDir) && Apart(b, TarballOf(b)) && Apart(b, o.systemDataDir + ["storage.yml"])
    && (storage.Some? ==> Apart(b, storage.value))
  }

  /** Writing below a directory leaves what is apart from it as it was. */
  lemma CopyBelowKeeps(fs: Fs, b: Path, x: string, tree: Fs, e: Path)
    requires Apart(b, e)
    ensures Sub(Graft(fs, b + [x], tree), e) == Sub(fs, e)
  {
    ApartChild(e, b, [x]);
    SubOfGraftElsewhere(fs, b + [x], tree, e);
  }

  lemma DataStageKeeps(o: CreateOptions, fs: Fs, e: Path)
    requires Apart(BackupDir(o), e)
    ensures Sub(WithData(o, fs), e) == Sub(fs, e)
  {
    var made := Mkdir(fs, BackupDir(o), Dir);
    SubOfMkdir(fs, BackupDir(o), Dir, e);
    CopyBelowKeeps(made, BackupDir(o), "data", Sub(made, o.dataDir), e);
  }

  lemma BundleStageKeeps(o: CreateOptions, w: CreateWorld, fs: Fs, e: Path)
    requires Apart(BackupDir(o), e)
    ensures Sub(WithBundle(o, w, fs), e) == Sub(fs, e)
  {
    var git := BackupDir(o) + ["git"];
    ApartChild(e, BackupDir(o), ["git"]);
    SubOfMkdir(fs, git, Dir, e);
    if w.bundle.Some? {
      CopyBelowKeeps(Mkdir(fs, git, Dir), git, "data.bundle", map[[] := File(w.bundle.value)], e);
    }
  }

  lemma StorageStageKeeps(o: CreateOptions, w: CreateWorld, fs: Fs, e: Path)
    requires Apart(BackupDir(o), e)
    ensures Sub(WithStorage(o, w, fs), e) == Sub(fs, e)
  {
    var b, s := BackupDir(o), LocalStorage(fs, o.systemDataDir, w.yaml);
    var made := Mkdir(fs, b + ["storage"], Dir);
    if s.Some? && s.value in fs {
      ApartChild(e, b, ["storage"]);
      SubOfMkdir(fs, b + ["storage"], Dir, e);
      CopyBelowKeeps(made, b, "storage", Sub(made, s.value), e);
    }
    CopyBelowKeeps(WithStorageFiles(o, s, fs), b, "storage-config.json", map[[] := File(w.minimalConfig)], e);
  }

  lemma TextStageKeeps(o: CreateOptions, w: CreateWorld, fs: Fs, e: Path)
    requires Apart(BackupDir(o), e)
    ensures Sub(WithTexts(o, w, fs), e) == Sub(fs, e)
  {
    var b := BackupDir(o);
    var fs1 := fs;
    if w.storageFiles.Some? {
      fs1 := Write(fs, b + ["storage-files.json"], File(w.storageFiles.value));
      CopyBelowKeeps(fs, b, "storage-files.json", map[[] := File(w.storageFiles.value)], e);
    }
    CopyBelowKeeps(fs1, b, "metadata.json", map[[] := File(w.metadata)], e);
  }

  lemma DataStage(o: CreateOptions, fs: Fs)
    requires Sub(fs, BackupDir(o)) == map[] && Apart(BackupDir(o), o.dataDir)
    ensures Sub(WithData(o, fs), BackupDir(o) + ["data"]) == Sub(fs, o.dataDir)
    ensures Sub(WithData(o, fs), BackupDir(o) + ["storage"]) == map[]
    ensures Sub(WithData(o, fs), BackupDir(o) + ["git"]) == map[]
  {
    var b := BackupDir(o);
    var made := Mkdir(fs, b, Dir);
    NothingBelow(fs, b, ["data"]);
    SubOfMkdir(fs, b, Dir, b + ["data"]);
    SubOfMkdir(fs, b, Dir, o.dataDir);
    SubOfGraft(made, b + ["data"], Sub(made, o.dataDir));
    DataStageBeside(o, fs, "storage");
    DataStageBeside(o, fs, "git");
  }

  lemma DataStageBeside(o: CreateOptions, fs: Fs, x: string)
    requires Sub(fs, BackupDir(o)) == map[] && x != "data"
    ensures Sub(WithData(o, fs), BackupDir(o) + [x]) == map[]
  {
    var b := BackupDir(o);
    var made := Mkdir(fs, b, Dir);
    NothingBelow(fs, b, [x]);
    SubOfMkdir(fs, b, Dir, b + [x]);
    SiblingsApart(b, "data", x, []);
    assert b + [x] + [] == b + [x];
    SubOfGraftElsewhere(made, b + ["data"], Sub(made, o.dataDir), b + [x]);
  }

  /** The bundle lies beside everything else. */
  lemma BundleStage(o: CreateOptions, w: CreateWorld, fs: Fs, x: string)
    requires x != "git"
    ensures Sub(WithBundle(o, w, fs), BackupDir(o) + [x]) == Sub(fs, BackupDir(o) + [x])
  {
    var b := BackupDir(o);
    SiblingsApart(b, x, "git", []);
    SiblingsApart(b, x, "git", ["data.bundle"]);
    assert b + ["git"] + [] == b + ["git"];
    SubOfMkdir(fs, b + ["git"], Dir, b + [x]);
    if w.bundle.Some? {
      WriteElsewhere(Mkdir(fs, b + ["git"], Dir), b + ["git"] + ["data.bundle"], File(w.bundle.value), b + [x]);
    }
  }

  const BUNDLE := ["git"] + ["data.bundle"]

  /** Git makes a bundle for the backup. */
  predicate Bundled(o: CreateOptions, w: CreateWorld, fs: Fs) {
    o.includeGitBundle && o.dataDir + [".git"] in fs && w.bundle.Some?
  }

  lemma BundleLies(o: CreateOptions, w: CreateWorld, fs: Fs)
    requires Sub(fs, BackupDir(o) + ["git"]) == map[]
    ensures ["data.bundle"] in Sub(WithBundle(o, w, fs), BackupDir(o) + ["git"]) <==> Bundled(o, w, fs)
  {
    var git := BackupDir(o) + ["git"];
    SubAt(WithBundle(o, w, fs), git, ["data.bundle"]);
    SubAt(fs, git, ["data.bundle"]);
    if o.includeGitBundle && o.dataDir + [".git"] in fs {
      MkdirAt(fs, git, Dir, git + ["data.bundle"]);
      if w.bundle.Some? {
        WriteReads(Mkdir(fs, git, Dir), git + ["data.bundle"], File(w.bundle.value));
      }
    }
  }

  lemma StorageStage(o: CreateOptions, w: CreateWorld, fs: Fs)
    requires var s := LocalStorage(fs, o.systemDataDir, w.yaml); s.Some? ==> Apart(BackupDir(o), s.value)
    requires Sub(fs, BackupDir(o) + ["storage"]) == map[]
    ensures Sub(WithStorage(o, w, fs), BackupDir(o) + ["data"]) == Sub(fs, BackupDir(o) + ["data"])
    ensures Sub(WithStorage(o, w, fs), BackupDir(o) + ["git"]) == Sub(fs, BackupDir(o) + ["git"])
    ensures Sub(WithStorage(o, w, fs), BackupDir(o) + ["storage"]) ==
            var s := LocalStorage(fs, o.systemDataDir, w.yaml);
            if o.includeStorage && s.Some? && s.value in fs then Sub(fs, s.value) else map[]
  {
    var b, s := BackupDir(o), LocalStorage(fs, o.systemDataDir, w.yaml);
    if s.Some? && s.value in fs {
      StorageCopied(fs, b, s.value);
    }
    var copied := WithStorageFiles(o, s, fs);
    TextKeeps(copied, b, "storage-config.json", File(w.minimalConfig), "data");
    TextKeeps(copied, b, "storage-config.json", File(w.minimalConfig), "git");
    TextKeeps(copied, b, "storage-config.json", File(w.minimalConfig), "storage");
  }

  lemma StorageBeside(fs: Fs, b: Path, tree: Fs, x: string)
    requires x != "storage"
    ensures Sub(Graft(Mkdir(fs, b + ["storage"], Dir), b + ["storage"], tree), b + [x]) == Sub(fs, b + [x])
  {
    var to := b + ["storage"];
    SiblingsApart(b, x, "storage", []);
    assert to + [] == to;
    SubOfMkdir(fs, to, Dir, b + [x]);
    SubOfGraftElsewhere(Mkdir(fs, to, Dir), to, tree, b + [x]);
  }

  lemma StorageCopied(fs: Fs, b: Path, storage: Path)
    requires Apart(b, storage) && storage in fs && Sub(fs, b + ["storage"]) == map[]
    ensures var made := Mkdir(fs, b + ["storage"], Dir);
            var after := Graft(made, b + ["storage"], Sub(made, storage));
            && Sub(after, b + ["data"]) == Sub(fs, b + ["data"]) && Sub(after, b + ["git"]) == Sub(fs, b + ["git"])
            && Sub(after, b + ["storage"]) == Sub(fs, storage)
  {
    var to := b + ["storage"];
    var tree := Sub(Mkdir(fs, to, Dir), storage);
    assert tree == Sub(fs, storage) by {
      ApartChild(storage, b, ["storage"]);
      SubOfMkdir(fs, to, Dir, storage);
    }
    assert [] in tree by {
      SubAt(fs, storage, []);
      assert storage + [] == storage;
    }
    StorageBeside(fs, b, tree, "data");
    StorageBeside(fs, b, tree, "git");
    StorageLands(fs, to, tree);
  }

  /** Copying a tree onto a directory just made, when the tree has a root of its own. */
  lemma StorageLands(fs: Fs, d: Path, tree: Fs)
    requires Sub(fs, d) == map[] && [] in tree
    ensures Sub(Graft(Mkdir(fs, d, Dir), d, tree), d) == tree
  {
    var made := Mkdir(fs, d, Dir);
    var after := Sub(Graft(made, d, tree), d);
    forall r ensures (r in after <==> r in tree) && (r in after ==> after[r] == tree[r]) {
      SubAt(Graft(made, d, tree), d, r);
      GraftAt(made, d, tree, r);
      SubAt(fs, d, r);
      MkdirAt(fs, d, Dir, d + r);
      assert d + r <= d ==> r == [];
    }
    SameTree(after, tree);
  }

  lemma TextKeeps(fs: Fs, b: Path, y: string, node: Node, x: string)
    requires x != y
    ensures Sub(Write(fs, b + [y], node), b + [x]) == Sub(fs, b + [x])
  {
    SiblingsApart(b, y, x, []);
    assert b + [x] + [] == b + [x];
    WriteElsewhere(fs, b + [y], node, b + [x]);
  }

  lemma TextsKeep(o: CreateOptions, w: CreateWorld, fs: Fs, x: string)
    requires x != "storage-files.json" && x != "metadata.json"
    ensures Sub(WithTexts(o, w, fs), BackupDir(o) + [x]) == Sub(fs, BackupDir(o) + [x])
  {
    var b := BackupDir(o);
    var fs1 := if w.storageFiles.Some? then Write(fs, b + ["storage-files.json"], File(w.storageFiles.value)) else fs;
    if w.storageFiles.Some? {
      TextKeeps(fs, b, "storage-files.json", File(w.storageFiles.value), x);
    }
    TextKeeps(fs1, b, "metadata.json", File(w.metadata), x);
  }

  lemma TarballKeeps(o: CreateOptions, w: CreateWorld, fs: Fs)
    requires Apart(BackupDir(o), TarballOf(BackupDir(o)))
    ensures Sub(WithTarball(o, w, fs), BackupDir(o)) == Sub(fs, BackupDir(o))
  {
    WriteElsewhere(fs, TarballOf(BackupDir(o)), Tarball(o.timestamp, Sub(fs, BackupDir(o))), BackupDir(o));
  }

  /** What the restorer can open: the backup directory, or the tarball, as one tree. */
  ghost predicate Holds(tree: Fs, data: Fs, storage: Option<Fs>) {
    && Sub(tree, ["data"]) == data
    && Sub(tree, ["storage"]) == storage.GetOr(map[])
  }

  /** The storage that a backup includes. */
  ghost function IncludedStorage(o: CreateOptions, w: CreateWorld, fs: Fs): Option<Fs> {
    var s := LocalStorage(fs, o.systemDataDir, w.yaml);
    if o.includeStorage && s.Some? && s.value in fs then Some(Sub(fs, s.value)) else None
  }

  /** A created backup holds exactly the data tree, the storage tree if it is included, and a git
      bundle if git makes one; the tarball holds the same tree as the directory. */
  lemma BackupHolds(o: CreateOptions, w: CreateWorld, fs: Fs)
    requires FreshBackup(o, w, fs)
    ensures var after := CreateBackup(o, w, fs);
            && after.1
            && Holds(Sub(after.0, BackupDir(o)), Sub(fs, o.dataDir), IncludedStorage(o, w, fs))
            && (BUNDLE in Sub(after.0, BackupDir(o)) <==> Bundled(o, w, fs))
            && TarballOf(BackupDir(o)) == o.outputDir + [o.timestamp + ".tar.gz"]
            && (o.compress && w.tarWorks ==>
                  TarballOf(BackupDir(o)) in after.0 &&
                  after.0[TarballOf(BackupDir(o))] == Tarball(o.timestamp, Sub(after.0, BackupDir(o))))
  {
    var b := BackupDir(o);
    var s := LocalStorage(fs, o.systemDataDir, w.yaml);
    var fs1 := WithData(o, fs);
    var fs2 := WithBundle(o, w, fs1);
    var fs3 := WithStorage(o, w, fs2);
    var fs4 := WithTexts(o, w, fs3);
    DataStage(o, fs);
    BundleStage(o, w, fs1, "data");
    BundleStage(o, w, fs1, "storage");
    EarlyStagesKeepConfig(o, w, fs);
    StorageStage(o, w, fs2);
    TextsKeep(o, w, fs3, "data");
    TextsKeep(o, w, fs3, "storage");
    BackupHoldsBundle(o, w, fs);
    TarballKeeps(o, w, fs4);
    SubOfSub(fs4, b, ["data"]);
    SubOfSub(fs4, b, ["storage"]);
    if o.compress && w.tarWorks {
      WriteReads(fs4, TarballOf(b), Tarball(o.timestamp, Sub(fs4, b)));
    }
  }

  lemma BundleInTree(fs: Fs, b: Path)
    ensures BUNDLE in Sub(fs, b) <==> ["data.bundle"] in Sub(fs, b + ["git"])
  {
    SubOfSub(fs, b, ["git"]);
    SubAt(Sub(fs, b), ["git"], ["data.bundle"]);
  }

  /** The data stage leaves the repository where the bundle stage looks for it. */
  lemma DataStageKeepsRepository(o: CreateOptions, w: CreateWorld, fs: Fs)
    requires Apart(BackupDir(o), o.dataDir)
    ensures Bundled(o, w, WithData(o, fs)) <==> Bundled(o, w, fs)
  {
    DataStageKeeps(o, fs, o.dataDir);
    SubAt(fs, o.dataDir, [".git"]);
    SubAt(WithData(o, fs), o.dataDir, [".git"]);
  }

  lemma BackupHoldsBundle(o: CreateOptions, w: CreateWorld, fs: Fs)
    requires FreshBackup(o, w, fs)
    ensures var fs3 := WithStorage(o, w, WithBundle(o, w, WithData(o, fs)));
            BUNDLE in Sub(WithTexts(o, w, fs3), BackupDir(o)) <==> Bundled(o, w, fs)
  {
    var fs1 := WithData(o, fs);
    var fs2 := WithBundle(o, w, fs1);
    DataStage(o, fs);
    DataStageKeepsRepository(o, w, fs);
    BundleLies(o, w, fs1);
    BundleStage(o, w, fs1, "storage");
    EarlyStagesKeepConfig(o, w, fs);
    StorageStage(o, w, fs2);
    TextsKeep(o, w, WithStorage(o, w, fs2), "git");
    BundleInTree(WithTexts(o, w, WithStorage(o, w, fs2)), BackupDir(o));
  }

  // ----- the files of a backup

  /** The storage stage writes at its own two names only. */
  lemma StorageStageBeside(o: CreateOptions, w: CreateWorld, fs: Fs, x: string)
    requires x != "storage" && x != "storage-config.json"
    ensures Sub(WithStorage(o, w, fs), BackupDir(o) + [x]) == Sub(fs, BackupDir(o) + [x])
  {
    var b, s := BackupDir(o), LocalStorage(fs, o.systemDataDir, w.yaml);
    if s.Some? && s.value in fs {
      StorageBeside(fs, b, Sub(Mkdir(fs, b + ["storage"], Dir), s.value), x);
    }
    TextKeeps(WithStorageFiles(o, s, fs), b, "storage-config.json", File(w.minimalConfig), x);
  }

  /** A place that holds one text, or nothing. */
  ghost predicate HoldsText(fs: Fs, p: Path, text: Option<string>) {
    Sub(fs, p) == if text.Some? then map[[] := File(text.value)] else map[]
  }

  lemma WrittenText(fs: Fs, p: Path, text: string)
    requires Sub(fs, p) == map[]
    ensures HoldsText(Write(fs, p, File(text)), p, Some(text))
  {
    SubOfGraft(fs, p, map[[] := File(text)]);
  }

  lemma StorageConfigWritten(o: CreateOptions, w: CreateWorld, fs: Fs)
    requires Sub(fs, BackupDir(o) + ["storage-config.json"]) == map[]
    ensures HoldsText(WithStorage(o, w, fs), BackupDir(o) + ["storage-config.json"],
                      if o.includeStorage && LoadStorageConfig(fs, o.systemDataDir, w.yaml).Config? then Some(w.minimalConfig) else None)
  {
    var b, s := BackupDir(o), LocalStorage(fs, o.systemDataDir, w.yaml);
    if s.Some? && s.value in fs {
      StorageBeside(fs, b, Sub(Mkdir(fs, b + ["storage"], Dir), s.value), "storage-config.json");
    }
    WrittenText(WithStorageFiles(o, s, fs), b + ["storage-config.json"], w.minimalConfig);
  }

  lemma TextsWritten(o: CreateOptions, w: CreateWorld, fs: Fs)
    requires Sub(fs, BackupDir(o) + ["storage-files.json"]) == map[] && Sub(fs, BackupDir(o) + ["metadata.json"]) == map[]
    ensures HoldsText(WithTexts(o, w, fs), BackupDir(o) + ["storage-files.json"], w.storageFiles)
    ensures HoldsText(WithTexts(o, w, fs), BackupDir(o) + ["metadata.json"], Some(w.metadata))
  {
    var b := BackupDir(o);
    var fs1 := fs;
    if w.storageFiles.Some? {
      fs1 := Write(fs, b + ["storage-files.json"], File(w.storageFiles.value));
      WrittenText(fs, b + ["storage-files.json"], w.storageFiles.value);
      TextKeeps(fs, b, "storage-files.json", File(w.storageFiles.value), "metadata.json");
    }
    WrittenText(fs1, b + ["metadata.json"], w.metadata);
    TextKeeps(fs1, b, "metadata.json", File(w.metadata), "storage-files.json");
  }

  lemma EarlyStagesBeside(o: CreateOptions, w: CreateWorld, fs: Fs, x: string)
    requires Sub(fs, BackupDir(o)) == map[] && x != "data" && x != "git"
    ensures Sub(WithBundle(o, w, WithData(o, fs)), BackupDir(o) + [x]) == map[]
  {
    DataStageBeside(o, fs, x);
    BundleStage(o, w, WithData(o, fs), x);
  }

  lemma BackupTexts(o: CreateOptions, w: CreateWorld, fs: Fs)
    requires FreshBackup(o, w, fs)
    ensures var after, b := CreateBackup(o, w, fs).0, BackupDir(o);
            && HoldsText(after, b + ["metadata.json"], Some(w.metadata))
            && HoldsText(after, b + ["storage-files.json"], w.storageFiles)
  {
    var fs2 := WithBundle(o, w, WithData(o, fs));
    var fs3 := WithStorage(o, w, fs2);
    EarlyStagesBeside(o, w, fs, "storage-files.json");
    EarlyStagesBeside(o, w, fs, "metadata.json");
    StorageStageBeside(o, w, fs2, "storage-files.json");
    StorageStageBeside(o, w, fs2, "metadata.json");
    TextsWritten(o, w, fs3);
    TarballKeepsChild(o, w, WithTexts(o, w, fs3), "metadata.json");
    TarballKeepsChild(o, w, WithTexts(o, w, fs3), "storage-files.json");
  }

  lemma BackupStorageConfig(o: CreateOptions, w: CreateWorld, fs: Fs)
    requires FreshBackup(o, w, fs)
    ensures HoldsText(CreateBackup(o, w, fs).0, BackupDir(o) + ["storage-config.json"],
                      if o.includeStorage && LoadStorageConfig(fs, o.systemDataDir, w.yaml).Config? then Some(w.minimalConfig) else None)
  {
    var fs2 := WithBundle(o, w, WithData(o, fs));
    var fs3 := WithStorage(o, w, fs2);
    EarlyStagesBeside(o, w, fs, "storage-config.json");
    EarlyStagesKeepConfig(o, w, fs);
    StorageConfigWritten(o, w, fs2);
    TextsKeep(o, w, fs3, "storage-config.json");
    TarballKeepsChild(o, w, WithTexts(o, w, fs3), "storage-config.json");
  }

  predicate BackupName(x: string) {
    || x == "data" || x == "git" || x == "storage"
    || x == "storage-config.json" || x == "storage-files.json" || x == "metadata.json"
  }

  lemma NothingElse(o: CreateOptions, w: CreateWorld, fs: Fs, x: string)
    requires FreshBackup(o, w, fs) && !BackupName(x)
    ensures Sub(CreateBackup(o, w, fs).0, BackupDir(o) + [x]) == map[]
  {
    var fs2 := WithBundle(o, w, WithData(o, fs));
    EarlyStagesBeside(o, w, fs, x);
    StorageStageBeside(o, w, fs2, x);
    TextsKeep(o, w, WithStorage(o, w, fs2), x);
    TarballKeepsChild(o, w, WithTexts(o, w, WithStorage(o, w, fs2)), x);
  }

  /** A created backup holds the metadata, the exported table if there is one, the minimal storage
      configuration if storage is included and configured, and nothing under any other name than
      these, data, git and storage. */
  lemma BackupFiles(o: CreateOptions, w: CreateWorld, fs: Fs, x: string)
    requires FreshBackup(o, w, fs)
    ensures var after, b := CreateBackup(o, w, fs).0, BackupDir(o);
            && HoldsText(after, b + ["metadata.json"], Some(w.metadata))
            && HoldsText(after, b + ["storage-files.json"], w.storageFiles)
            && HoldsText(after, b + ["storage-config.json"],
                         if o.includeStorage && LoadStorageConfig(fs, o.systemDataDir, w.yaml).Config? then Some(w.minimalConfig) else None)
            && (!BackupName(x) ==> Sub(after, b + [x]) == map[])
  {
    BackupTexts(o, w, fs);
    BackupStorageConfig(o, w, fs);
    if !BackupName(x) {
      NothingElse(o, w, fs, x);
    }
  }

  lemma TarballKeepsChild(o: CreateOptions, w: CreateWorld, fs: Fs, x: string)
    requires Apart(BackupDir(o), TarballOf(BackupDir(o)))
    ensures Sub(WithTarball(o, w, fs), BackupDir(o) + [x]) == Sub(fs, BackupDir(o) + [x])
  {
    TarballKeeps(o, w, fs);
    SubOfSub(fs, BackupDir(o), [x]);
    SubOfSub(WithTarball(o, w, fs), BackupDir(o), [x]);
  }

  /** The git directory of a backup holds the bundle that git made, or nothing, and is there
      whenever a bundle was to be made of a repository. */
  lemma BackupGit(o: CreateOptions, w: CreateWorld, fs: Fs)
    requires FreshBackup(o, w, fs)
    ensures Sub(CreateBackup(o, w, fs).0, BackupDir(o) + ["git"]) ==
            if !o.includeGitBundle || o.dataDir + [".git"] !in fs then map[]
            else if w.bundle.None? then map[[] := Dir]
            else map[[] := Dir, ["data.bundle"] := File(w.bundle.value)]
  {
    var fs1 := WithData(o, fs);
    var fs2 := WithBundle(o, w, fs1);
    var fs3 := WithStorage(o, w, fs2);
    DataStage(o, fs);
    RepositoryStays(o, fs);
    BundleStageGit(o, w, fs1);
    StorageStageBeside(o, w, fs2, "git");
    TextsKeep(o, w, fs3, "git");
    TarballKeepsChild(o, w, WithTexts(o, w, fs3), "git");
  }

  lemma RepositoryStays(o: CreateOptions, fs: Fs)
    requires Apart(BackupDir(o), o.dataDir)
    ensures o.dataDir + [".git"] in WithData(o, fs) <==> o.dataDir + [".git"] in fs
  {
    DataStageKeeps(o, fs, o.dataDir);
    SubAt(fs, o.dataDir, [".git"]);
    SubAt(WithData(o, fs), o.dataDir, [".git"]);
  }

  lemma BundleStageGit(o: CreateOptions, w: CreateWorld, fs: Fs)
    requires Sub(fs, BackupDir(o) + ["git"]) == map[]
    ensures Sub(WithBundle(o, w, fs), BackupDir(o) + ["git"]) ==
            if !o.includeGitBundle || o.dataDir + [".git"] !in fs then map[]
            else if w.bundle.None? then map[[] := Dir]
            else map[[] := Dir, ["data.bundle"] := File(w.bundle.value)]
  {
    var git := BackupDir(o) + ["git"];
    if o.includeGitBundle && o.dataDir + [".git"] in fs {
      var made := Mkdir(fs, git, Dir);
      MadeDirectory(fs, git);
      if w.bundle.Some? {
        GraftBelow(made, git, ["data.bundle"], map[[] := File(w.bundle.value)]);
        OneFileBelow(File(w.bundle.value));
      }
    }
  }

  lemma MadeDirectory(fs: Fs, d: Path)
    requires Sub(fs, d) == map[]
    ensures Sub(Mkdir(fs, d, Dir), d) == map[[] := Dir]
  {
    var a, b: Fs := Sub(Mkdir(fs, d, Dir), d), map[[] := Dir];
    forall r ensures (r in a <==> r in b) && (r in a ==> a[r] == b[r]) {
      SubAt(Mkdir(fs, d, Dir), d, r);
      SubAt(fs, d, r);
      MkdirAt(fs, d, Dir, d + r);
      assert d + r <= d <==> r == [];
    }
    SameTree(a, b);
  }

  lemma OneFileBelow(node: Node)
    ensures Graft(map[[] := Dir], ["data.bundle"], map[[] := node]) == map[[] := Dir, ["data.bundle"] := node]
  {
    var tree: Fs := map[[] := Dir];
    var a, b: Fs := Graft(tree, ["data.bundle"], map[[] := node]), map[[] := Dir, ["data.bundle"] := node];
    forall q ensures (q in a <==> q in b) && (q in a ==> a[q] == b[q]) {
      if ["data.bundle"] <= q {
        assert q == ["data.bundle"] + q[1..] && (q == ["data.bundle"] <==> q[1..] == []);
        GraftAt(tree, ["data.bundle"], map[[] := node], q[1..]);
      } else {
        GraftElsewhere(tree, ["data.bundle"], map[[] := node], q);
      }
    }
    SameTree(a, b);
  }

  lemma WriteReads(fs: Fs, p: Path, node: Node)
    ensures p in Write(fs, p, node) && Write(fs, p, node)[p] == node
  {
    GraftAt(fs, p, map[[] := node], []);
    assert p + [] == p;
  }

  /** The storage stage sees the configuration and the storage of the start. */
  lemma EarlyStagesKeepConfig(o: CreateOptions, w: CreateWorld, fs: Fs)
    requires FreshBackup(o, w, fs)
    ensures var fs2 := WithBundle(o, w, WithData(o, fs));
            && LoadStorageConfig(fs2, o.systemDataDir, w.yaml) == LoadStorageConfig(fs, o.systemDataDir, w.yaml)
            && LocalStorage(fs2, o.systemDataDir, w.yaml) == LocalStorage(fs, o.systemDataDir, w.yaml)
            && var s := LocalStorage(fs, o.systemDataDir, w.yaml);
               s.Some? ==> Sub(fs2, s.value) == Sub(fs, s.value) && (s.value in fs2 <==> s.value in fs)
  {
    var fs1 := WithData(o, fs);
    var fs2 := WithBundle(o, w, fs1);
    var p := o.systemDataDir + ["storage.yml"];
    DataStageKeeps(o, fs, p);
    BundleStageKeeps(o, w, fs1, p);
    ConfigOnlyReadsItsFile(fs, fs2, o.systemDataDir, w.yaml);
    var s := LocalStorage(fs, o.systemDataDir, w.yaml);
    if s.Some? {
      DataStageKeeps(o, fs, s.value);
      BundleStageKeeps(o, w, fs1, s.value);
      SubAt(fs, s.value, []);
      SubAt(fs2, s.value, []);
      assert s.value + [] == s.value;
    }
  }

  // ----- what a restore brings back

  /** Nothing lies below a directory that does not exist. */
  ghost predicate Tidy(fs: Fs, d: Path) {
    d in fs || Sub(fs, d) == map[]
  }

  lemma NotOnTheWay(to: Path, e: Path)
    requires !(e <= to)
    ensures !(e <= Parent(to))
  {
    if |e| <= |Parent(to)| {
      assert Parent(to)[..|e|] == to[..|e|];
    }
  }

  lemma ReplacedIsCopy(fs: Fs, from: Path, to: Path)
    requires Apart(from, to) && Tidy(fs, to)
    ensures Sub(Replaced(fs, from, to), to) == Sub(fs, from)
  {
    var cleared := if to in fs then Remove(fs, to) else fs;
    var made := Mkdir(cleared, Parent(to), Dir);
    SubOfRemove(fs, to, from);
    NotOnTheWay(to, from);
    SubOfMkdir(cleared, Parent(to), Dir, from);
    SubOfMkdir(cleared, Parent(to), Dir, to);
    SubOfGraft(made, to, Sub(made, from));
  }

  lemma ReplacedKeeps(fs: Fs, from: Path, to: Path, e: Path)
    requires Apart(to, e)
    ensures Sub(Replaced(fs, from, to), e) == Sub(fs, e)
  {
    var cleared := if to in fs then Remove(fs, to) else fs;
    var made := Mkdir(cleared, Parent(to), Dir);
    SubOfRemove(fs, to, e);
    NotOnTheWay(to, e);
    SubOfMkdir(cleared, Parent(to), Dir, e);
    SubOfGraftElsewhere(made, to, Sub(made, from), e);
  }

  /** A tree without its git directory. */
  function NoGit(tree: Fs): Fs {
    Remove(tree, [".git"])
  }

  /** The data tree with the git directory that a restore leaves: as backed up if the backup has
      no bundle; else that of the clone, or none if cloning fails. */
  function Regitted(data: Fs, bundled: bool, clone: Option<Fs>): Fs {
    if !bundled then data
    else if clone.None? then NoGit(data)
    else Graft(NoGit(data), [".git"], clone.value)
  }

  lemma RegittedOutsideGit(data: Fs, bundled: bool, clone: Option<Fs>)
    ensures NoGit(Regitted(data, bundled, clone)) == NoGit(data)
  {
    if bundled && clone.Some? {
      forall q | !([".git"] <= q)
        ensures q in Regitted(data, bundled, clone) <==> q in NoGit(data)
        ensures q in NoGit(data) ==> Regitted(data, bundled, clone)[q] == data[q]
      {
        GraftElsewhere(NoGit(data), [".git"], clone.value, q);
      }
      SameTree(NoGit(Regitted(data, bundled, clone)), NoGit(data));
    }
  }

  lemma GitStage(o: RestoreOptions, w: RestoreWorld, src: Path, fs: Fs)
    requires Apart(Parent(o.dataDir) + [".temp-git-restore"], o.dataDir)
    ensures Sub(GitRestored(o, w, src, fs), o.dataDir) ==
            Regitted(Sub(fs, o.dataDir), src + ["git"] + ["data.bundle"] in fs, w.clone)
  {
    var temp := Parent(o.dataDir) + [".temp-git-restore"];
    var cleared := Remove(fs, o.dataDir + [".git"]);
    SubOfRemove(cleared, temp, o.dataDir);
    RemoveBelow(fs, o.dataDir, [".git"]);
    if w.clone.Some? {
      GraftBelow(Remove(cleared, temp), o.dataDir, [".git"], w.clone.value);
    }
  }

  /** Removing and copying below a directory, seen from the directory. */
  lemma RemoveBelow(fs: Fs, d: Path, r: Path)
    ensures Sub(Remove(fs, d + r), d) == Remove(Sub(fs, d), r)
  {
    var a, b := Sub(Remove(fs, d + r), d), Remove(Sub(fs, d), r);
    forall q ensures (q in a <==> q in b) && (q in a ==> a[q] == b[q]) {
      SubAt(Remove(fs, d + r), d, q);
      SubAt(fs, d, q);
      BelowTogether(d, r, q);
    }
    SameTree(a, b);
  }

  lemma GraftBelow(fs: Fs, d: Path, r: Path, tree: Fs)
    ensures Sub(Graft(fs, d + r, tree), d) == Graft(Sub(fs, d), r, tree)
  {
    var a, b := Sub(Graft(fs, d + r, tree), d), Graft(Sub(fs, d), r, tree);
    forall q ensures (q in a <==> q in b) && (q in a ==> a[q] == b[q]) {
      SubAt(Graft(fs, d + r, tree), d, q);
      SubAt(fs, d, q);
      BelowTogether(d, r, q);
      if r <= q {
        var q' := q[|r|..];
        assert q == r + q' && d + q == d + r + q';
        GraftAt(fs, d + r, tree, q');
        GraftAt(Sub(fs, d), r, tree, q');
      } else {
        GraftElsewhere(fs, d + r, tree, d + q);
        GraftElsewhere(Sub(fs, d), r, tree, q);
      }
    }
    SameTree(a, b);
  }

  lemma BelowTogether(d: Path, r: Path, q: Path)
    ensures d + r <= d + q <==> r <= q
  {
    if d + r <= d + q {
      assert r == (d + r)[|d|..] == (d + q)[..|d + r|][|d|..] == q[..|r|];
    }
    if r <= q {
      assert d + q == d + r + q[|r|..];
    }
  }

  lemma GitStageKeeps(o: RestoreOptions, w: RestoreWorld, src: Path, fs: Fs, e: Path)
    requires Apart(Parent(o.dataDir) + [".temp-git-restore"], e) && Apart(o.dataDir, e)
    ensures Sub(GitRestored(o, w, src, fs), e) == Sub(fs, e)
  {
    ApartChild(e, o.dataDir, [".git"]);
    GitReplacedKeeps(fs, o.dataDir + [".git"], Parent(o.dataDir) + [".temp-git-restore"], w.clone, e);
  }

  lemma GitReplacedKeeps(fs: Fs, git: Path, temp: Path, clone: Option<Fs>, e: Path)
    requires Apart(git, e) && Apart(temp, e)
    ensures var cleared := Remove(Remove(fs, git), temp);
            && Sub(cleared, e) == Sub(fs, e)
            && (clone.Some? ==> Sub(Graft(cleared, git, clone.value), e) == Sub(fs, e))
  {
    SubOfRemove(fs, git, e);
    SubOfRemove(Remove(fs, git), temp, e);
    if clone.Some? {
      SubOfGraftElsewhere(Remove(Remove(fs, git), temp), git, clone.value, e);
    }
  }

  /** Places of a restore that do not meet: the data, the storage configuration, the temporary
      clone, and a source and a storage directory if they are given. */
  ghost predicate RestoreApart(o: RestoreOptions, e: Path) {
    Apart(o.dataDir, e) && Apart(Parent(o.dataDir) + [".temp-git-restore"], e)
  }

  /** What exists may be replaced only with overwrite. */
  predicate MayReplace(o: RestoreOptions, fs: Fs, p: Path) {
    o.overwrite || p !in fs
  }

  /** The place for the storage, as configured or the default, is apart from everything else and
      tidy. */
  ghost predicate StoragePlace(o: RestoreOptions, w: RestoreWorld, src: Path, fs: Fs, place: Path) {
    && !LoadStorageConfig(fs, o.systemDataDir, w.yaml).Broken? && StorageTarget(o, w, fs) == place
    && RestoreApart(o, place) && Apart(src, place) && Tidy(fs, place)
    && RestoreApart(o, o.systemDataDir + ["storage.yml"])
  }

  /** Restoring from an open source: the data. */
  lemma RestoresData(o: RestoreOptions, w: RestoreWorld, src: Path, fs: Fs, data: Fs)
    requires Sub(Sub(fs, src), ["data"]) == data && Tidy(fs, o.dataDir)
    requires Apart(Parent(o.dataDir) + [".temp-git-restore"], o.dataDir) && RestoreApart(o, src)
    ensures Sub(DataRestored(o, w, src, fs), o.dataDir) == Regitted(data, BUNDLE in Sub(fs, src), w.clone)
  {
    var fs1 := Replaced(fs, src + ["data"], o.dataDir);
    SubOfSub(fs, src, ["data"]);
    ApartChild(o.dataDir, src, ["data"]);
    ReplacedIsCopy(fs, src + ["data"], o.dataDir);
    BundleStillThere(o, src, fs);
    GitStage(o, w, src, fs1);
  }

  lemma BundleFile(fs: Fs, src: Path)
    ensures src + ["git"] + ["data.bundle"] in fs <==> BUNDLE in Sub(fs, src)
  {
    BundleInTree(fs, src);
    SubAt(fs, src + ["git"], ["data.bundle"]);
  }

  lemma BundleStillThere(o: RestoreOptions, src: Path, fs: Fs)
    requires RestoreApart(o, src)
    ensures src + ["git"] + ["data.bundle"] in Replaced(fs, src + ["data"], o.dataDir) <==> BUNDLE in Sub(fs, src)
  {
    ReplacedKeeps(fs, src + ["data"], o.dataDir, src);
    BundleFile(Replaced(fs, src + ["data"], o.dataDir), src);
  }

  /** And the storage, which leaves the data alone. */
  lemma RestoresStorage(o: RestoreOptions, w: RestoreWorld, src: Path, fs: Fs, storage: Fs, place: Path)
    requires Sub(Sub(fs, src), ["storage"]) == storage && [] in storage
    requires o.restoreStorage && StoragePlace(o, w, src, fs, place) && RestoreApart(o, src)
    ensures var restored := StorageRestored(o, w, src, DataRestored(o, w, src, fs));
            && restored.1 && Sub(restored.0, place) == (if MayReplace(o, fs, place) then storage else Sub(fs, place))
            && Sub(restored.0, o.dataDir) == Sub(DataRestored(o, w, src, fs), o.dataDir)
  {
    var fs2 := DataRestored(o, w, src, fs);
    SubOfSub(fs, src, ["storage"]);
    StorageSourceKept(o, w, src, fs);
    InSub(fs, src + ["storage"]);
    DataRestoredKeepsPlace(o, w, src, fs, place);
    StorageIsReplaced(o, w, src, fs2, place);
    if MayReplace(o, fs2, place) {
      ApartChild(place, src, ["storage"]);
      ReplacedIsCopy(fs2, src + ["storage"], place);
      ReplacedKeeps(fs2, src + ["storage"], place, o.dataDir);
    }
  }

  lemma StorageIsReplaced(o: RestoreOptions, w: RestoreWorld, src: Path, fs: Fs, place: Path)
    requires o.restoreStorage && src + ["storage"] in fs
    requires !LoadStorageConfig(fs, o.systemDataDir, w.yaml).Broken? && StorageTarget(o, w, fs) == place
    ensures StorageRestored(o, w, src, fs) ==
            (if MayReplace(o, fs, place) then Replaced(fs, src + ["storage"], place) else fs, true)
  {
  }

  lemma DataRestoredKeepsPlace(o: RestoreOptions, w: RestoreWorld, src: Path, fs: Fs, place: Path)
    requires StoragePlace(o, w, src, fs, place)
    ensures var fs2 := DataRestored(o, w, src, fs);
            && !LoadStorageConfig(fs2, o.systemDataDir, w.yaml).Broken? && StorageTarget(o, w, fs2) == place
            && Tidy(fs2, place) && Sub(fs2, place) == Sub(fs, place) && (place in fs2 <==> place in fs)
  {
    var fs2 := DataRestored(o, w, src, fs);
    StageKeepsPlace(o, w, src, fs, place);
    StageKeepsPlace(o, w, src, fs, o.systemDataDir + ["storage.yml"]);
    ConfigOnlyReadsItsFile(fs, fs2, o.systemDataDir, w.yaml);
    InSub(fs, place);
    InSub(fs2, place);
  }

  lemma InSub(fs: Fs, p: Path)
    ensures p in fs <==> [] in Sub(fs, p)
  {
    SubAt(fs, p, []);
    assert p + [] == p;
  }

  /** Restoring the data and git leaves other places as they were. */
  lemma StageKeepsPlace(o: RestoreOptions, w: RestoreWorld, src: Path, fs: Fs, e: Path)
    requires RestoreApart(o, e)
    ensures Sub(DataRestored(o, w, src, fs), e) == Sub(fs, e)
  {
    ReplacedKeeps(fs, src + ["data"], o.dataDir, e);
    GitStageKeeps(o, w, src, Replaced(fs, src + ["data"], o.dataDir), e);
  }

  lemma StorageSourceKept(o: RestoreOptions, w: RestoreWorld, src: Path, fs: Fs)
    requires RestoreApart(o, src)
    ensures var fs2 := DataRestored(o, w, src, fs);
            Sub(fs2, src + ["storage"]) == Sub(fs, src + ["storage"]) && (src + ["storage"] in fs2 <==> src + ["storage"] in fs)
  {
    var fs2 := DataRestored(o, w, src, fs);
    ApartChild(o.dataDir, src, ["storage"]);
    ApartChild(Parent(o.dataDir) + [".temp-git-restore"], src, ["storage"]);
    StageKeepsPlace(o, w, src, fs, src + ["storage"]);
    InSub(fs, src + ["storage"]);
    InSub(fs2, src + ["storage"]);
  }

  // ----- opening

  /** Opening changes nothing outside the temporary directory. */
  lemma OpenKeeps(o: RestoreOptions, w: RestoreWorld, fs: Fs, e: Path)
    requires Apart(w.temp, e)
    ensures Open(o, w, fs).At? ==> Sub(Open(o, w, fs).fs, e) == Sub(fs, e)
  {
    var tarball := TarballPath(o.backupDir);
    if tarball in fs && fs[tarball].Tarball? {
      SubOfMkdir(fs, w.temp, Dir, e);
      CopyBelowKeeps(Mkdir(fs, w.temp, Dir), w.temp, fs[tarball].name, fs[tarball].tree, e);
    }
  }

  /** What a restore finds: the tree of the tarball if there is one, whatever became of the
      directory, and else that of the directory. */
  ghost predicate BackupAt(fs: Fs, dir: Path, tree: Fs) {
    && dir != [] && !NamesTarball(dir)
    && if TarballOf(dir) in fs then fs[TarballOf(dir)].Tarball? && fs[TarballOf(dir)].tree == tree
       else dir in fs && Sub(fs, dir) == tree
  }

  lemma OpenHolds(o: RestoreOptions, w: RestoreWorld, fs: Fs, tree: Fs)
    requires BackupAt(fs, o.backupDir, tree) && Sub(fs, w.temp) == map[]
    ensures var s := Open(o, w, fs);
            && s.At? && Sub(s.fs, s.dir) == tree
            && (s.dir == o.backupDir || exists name :: s.dir == w.temp + [name])
  {
    var tarball := TarballPath(o.backupDir);
    if tarball in fs {
      var to := w.temp + [fs[tarball].name];
      NothingBelow(fs, w.temp, [fs[tarball].name]);
      SubOfMkdir(fs, w.temp, Dir, to);
      SubOfGraft(Mkdir(fs, w.temp, Dir), to, tree);
    }
  }

  // ----- the round trip

  /** Where a restore happens: the temporary directory is new, and it, the backup, the data, the
      temporary clone, the configuration and the storage (if it was included) do not meet. */
  ghost predicate RestoreSetting(o: RestoreOptions, w: RestoreWorld, fs: Fs, storage: Option<Path>) {
    && Sub(fs, w.temp) == map[] && Tidy(fs, o.dataDir)
    && RestoreApart(o, w.temp) && RestoreApart(o, o.backupDir)
    && Apart(Parent(o.dataDir) + [".temp-git-restore"], o.dataDir)
    && (storage.Some? ==>
          && StoragePlace(o, w, o.backupDir, fs, storage.value)
          && Apart(w.temp, storage.value) && Apart(w.temp, o.systemDataDir + ["storage.yml"]))
  }

  /** The stages of a restore, from an open source. */
  lemma RestoresFromSource(o: RestoreOptions, w: RestoreWorld, src: Path, fs: Fs, data: Fs, storage: Option<Fs>, place: Option<Path>)
    requires Holds(Sub(fs, src), data, storage) && [] in data && (storage.Some? ==> [] in storage.value && place.Some?)
    requires Tidy(fs, o.dataDir) && Apart(Parent(o.dataDir) + [".temp-git-restore"], o.dataDir) && RestoreApart(o, src)
    requires o.restoreStorage && storage.Some? ==> StoragePlace(o, w, src, fs, place.value)
    ensures var stored := StorageRestored(o, w, src, DataRestored(o, w, src, fs));
            && stored.1 && Sub(stored.0, o.dataDir) == Regitted(data, BUNDLE in Sub(fs, src), w.clone)
            && (o.restoreStorage && storage.Some? ==>
                  Sub(stored.0, place.value) == if MayReplace(o, fs, place.value) then storage.value else Sub(fs, place.value))
  {
    RestoresData(o, w, src, fs, data);
    if o.restoreStorage && storage.Some? {
      RestoresStorage(o, w, src, fs, storage.value, place.value);
    } else {
      SourceHolds(fs, src, Sub(fs, src), data, storage);
      StorageSourceKept(o, w, src, fs);
    }
  }

  /** Restoring a held backup, to where nothing is or with overwrite, brings back the data, its git
      directory from the bundle if there is one, and the storage if the backup includes it, the
      restore asks for it and its place may be replaced; else what is there stays. */
  lemma RestoreBringsBack(o: RestoreOptions, w: RestoreWorld, fs: Fs, tree: Fs, data: Fs, storage: Option<Fs>, place: Option<Path>)
    requires BackupAt(fs, o.backupDir, tree) && Holds(tree, data, storage) && [] in data
    requires storage.Some? ==> [] in storage.value && place.Some?
    requires MayReplace(o, fs, o.dataDir)
    requires RestoreSetting(o, w, fs, if o.restoreStorage && storage.Some? then place else None)
    ensures var after := RestoreBackup(o, w, fs);
            && after.1 && Sub(after.0, o.dataDir) == Regitted(data, BUNDLE in tree, w.clone)
            && (o.restoreStorage && storage.Some? ==>
                  Sub(after.0, place.value) == if MayReplace(o, fs, place.value) then storage.value else Sub(fs, place.value))
  {
    OpenHolds(o, w, fs, tree);
    var s := Open(o, w, fs);
    SourceApart(o, w, s.dir, o.dataDir);
    SourceApart(o, w, s.dir, Parent(o.dataDir) + [".temp-git-restore"]);
    OpenKeepsPlace(o, w, fs, o.dataDir);
    SourceHolds(s.fs, s.dir, tree, data, storage);
    if o.restoreStorage && storage.Some? {
      OpenStorage(o, w, fs, tree, place.value);
    }
    RestoresFromSource(o, w, s.dir, s.fs, data, storage, place);
    CleanupKeeps(o, w, fs, o.dataDir);
    if o.restoreStorage && storage.Some? {
      CleanupKeeps(o, w, fs, place.value);
    }
  }

  /** Removing the temporary directory at the end changes no place apart from it. */
  lemma CleanupKeeps(o: RestoreOptions, w: RestoreWorld, fs: Fs, e: Path)
    requires Apart(w.temp, e) && Open(o, w, fs).At? && MayReplace(o, Open(o, w, fs).fs, o.dataDir)
    requires Open(o, w, fs).dir + ["data"] in Open(o, w, fs).fs
    ensures var s := Open(o, w, fs);
            var stored := StorageRestored(o, w, s.dir, DataRestored(o, w, s.dir, s.fs));
            && RestoreBackup(o, w, fs).1 == stored.1
            && Sub(RestoreBackup(o, w, fs).0, e) == Sub(stored.0, e)
  {
    var s := Open(o, w, fs);
    SubOfRemove(StorageRestored(o, w, s.dir, DataRestored(o, w, s.dir, s.fs)).0, w.temp, e);
  }

  lemma SourceHolds(fs: Fs, src: Path, tree: Fs, data: Fs, storage: Option<Fs>)
    requires Sub(fs, src) == tree && Holds(tree, data, storage) && [] in data
    requires storage.Some? ==> [] in storage.value
    ensures src + ["data"] in fs && Sub(fs, src + ["data"]) == data
    ensures src + ["storage"] in fs <==> storage.Some?
  {
    SubOfSub(fs, src, ["data"]);
    SubOfSub(fs, src, ["storage"]);
    InSub(fs, src + ["data"]);
    InSub(fs, src + ["storage"]);
  }

  /** Opening leaves the place of the storage as it was. */
  lemma OpenStorage(o: RestoreOptions, w: RestoreWorld, fs: Fs, tree: Fs, p: Path)
    requires RestoreSetting(o, w, fs, Some(p)) && BackupAt(fs, o.backupDir, tree)
    ensures var s := Open(o, w, fs);
            s.At? ==> StoragePlace(o, w, s.dir, s.fs, p) && Sub(s.fs, p) == Sub(fs, p) && (p in s.fs <==> p in fs)
  {
    OpenHolds(o, w, fs, tree);
    var s := Open(o, w, fs);
    OpenKeepsPlace(o, w, fs, p);
    OpenKeepsConfig(o, w, fs);
    SameConfigSameTarget(o, w, fs, s.fs);
    SourceApart(o, w, s.dir, p);
    assert StoragePlace(o, w, o.backupDir, fs, p);
  }

  lemma SameConfigSameTarget(o: RestoreOptions, w: RestoreWorld, fs: Fs, fs': Fs)
    requires LoadStorageConfig(fs, o.systemDataDir, w.yaml) == LoadStorageConfig(fs', o.systemDataDir, w.yaml)
    ensures StorageTarget(o, w, fs) == StorageTarget(o, w, fs')
  {
  }

  lemma OpenKeepsConfig(o: RestoreOptions, w: RestoreWorld, fs: Fs)
    requires Apart(w.temp, o.systemDataDir + ["storage.yml"])
    ensures Open(o, w, fs).At? ==>
              LoadStorageConfig(Open(o, w, fs).fs, o.systemDataDir, w.yaml) == LoadStorageConfig(fs, o.systemDataDir, w.yaml)
  {
    OpenKeeps(o, w, fs, o.systemDataDir + ["storage.yml"]);
    if Open(o, w, fs).At? {
      ConfigOnlyReadsItsFile(fs, Open(o, w, fs).fs, o.systemDataDir, w.yaml);
    }
  }

  lemma SourceApart(o: RestoreOptions, w: RestoreWorld, src: Path, e: Path)
    requires src == o.backupDir || exists name :: src == w.temp + [name]
    requires Apart(o.backupDir, e) && Apart(w.temp, e)
    ensures Apart(src, e) && Apart(e, src)
  {
    if src != o.backupDir {
      var name :| src == w.temp + [name];
      ApartChild(e, w.temp, [name]);
    }
  }

  lemma OpenKeepsPlace(o: RestoreOptions, w: RestoreWorld, fs: Fs, e: Path)
    requires Apart(w.temp, e) && Tidy(fs, e)
    ensures var s := Open(o, w, fs); s.At? ==> Sub(s.fs, e) == Sub(fs, e) && Tidy(s.fs, e) && (e in s.fs <==> e in fs)
  {
    OpenKeeps(o, w, fs, e);
    if Open(o, w, fs).At? {
      InSub(fs, e);
      InSub(Open(o, w, fs).fs, e);
    }
  }

  /** Backup, then anything at all that leaves the tarball alone, or the backup if there is none,
      then restore, with overwrite or to where no data are: the data tree is what it was when the
      backup was made, all of it if the backup has no git bundle, and otherwise outside `.git`,
      which is that of the cloned bundle; and the local storage tree, if it was included, is at the
      place that is then configured for it, unless something is there and must stay. */
  lemma BackupThenRestore(o: CreateOptions, w: CreateWorld, before: Fs, now: Fs, r: RestoreOptions, rw: RestoreWorld)
    requires FreshBackup(o, w, before)
    requires r.backupDir == BackupDir(o) && r.dataDir == o.dataDir && MayReplace(r, now, o.dataDir)
    requires BackupAt(now, BackupDir(o), Sub(CreateBackup(o, w, before).0, BackupDir(o)))
    requires RestoreSetting(r, rw, now, if r.restoreStorage && IncludedStorage(o, w, before).Some?
                                        then Some(StorageTarget(r, rw, now)) else None)
    ensures var after := RestoreBackup(r, rw, now);
            && after.1
            && Sub(after.0, o.dataDir) == Regitted(Sub(before, o.dataDir), Bundled(o, w, before), rw.clone)
            && NoGit(Sub(after.0, o.dataDir)) == NoGit(Sub(before, o.dataDir))
            && (r.restoreStorage && IncludedStorage(o, w, before).Some? ==>
                  var place := StorageTarget(r, rw, now);
                  Sub(after.0, place) == if MayReplace(r, now, place) then IncludedStorage(o, w, before).value else Sub(now, place))
  {
    BackupHolds(o, w, before);
    var storage := IncludedStorage(o, w, before);
    RegittedOutsideGit(Sub(before, o.dataDir), Bundled(o, w, before), rw.clone);
    InSub(before, o.dataDir);
    if storage.Some? {
      InSub(before, LocalStorage(before, o.systemDataDir, w.yaml).value);
    }
    RestoreBringsBack(r, rw, now, Sub(CreateBackup(o, w, before).0, BackupDir(o)), Sub(before, o.dataDir), storage,
                      Some(StorageTarget(r, rw, now)));
  }

  /** The backup as it was created is such a backup, with its tarball if one was made. */
  lemma CreatedBackupIsReady(o: CreateOptions, w: CreateWorld, before: Fs)
    requires FreshBackup(o, w, before) && !NamesTarball(BackupDir(o))
    ensures var after := CreateBackup(o, w, before).0; BackupAt(after, BackupDir(o), Sub(after, BackupDir(o)))
  {
    BackupHolds(o, w, before);
    NoOtherTarball(o, w, before);
    DirectoryMade(o, before);
    DirectoryStays(o, w, WithData(o, before));
  }

  /** No stage but the last writes the tarball. */
  lemma NoOtherTarball(o: CreateOptions, w: CreateWorld, before: Fs)
    requires FreshBackup(o, w, before)
    ensures TarballOf(BackupDir(o)) !in WithTexts(o, w, WithStorage(o, w, WithBundle(o, w, WithData(o, before))))
  {
    var t, fs1 := TarballOf(BackupDir(o)), WithData(o, before);
    var fs2 := WithBundle(o, w, fs1);
    var fs3 := WithStorage(o, w, fs2);
    DataStageKeeps(o, before, t);
    BundleStageKeeps(o, w, fs1, t);
    StorageStageKeeps(o, w, fs2, t);
    TextStageKeeps(o, w, fs3, t);
    InSub(before, t);
    InSub(WithTexts(o, w, fs3), t);
  }

  lemma DirectoryMade(o: CreateOptions, fs: Fs)
    ensures BackupDir(o) in WithData(o, fs)
  {
    MkdirAt(fs, BackupDir(o), Dir, BackupDir(o));
    assert BackupDir(o) in Mkdir(fs, BackupDir(o), Dir);
  }

  lemma DirectoryStays(o: CreateOptions, w: CreateWorld, fs: Fs)
    requires BackupDir(o) in fs
    ensures BackupDir(o) in WithTexts(o, w, WithStorage(o, w, WithBundle(o, w, fs)))
  {
  }

  /** A backup is created exactly if the data directory exists, unless it lies on the way to the
      backup and is made with it. */
  lemma CreateGoesThroughIff(o: CreateOptions, w: CreateWorld, fs: Fs)
    ensures CreateBackup(o, w, fs).1 <==> o.dataDir in fs || o.dataDir <= BackupDir(o)
  {
    MkdirAt(fs, BackupDir(o), Dir, o.dataDir);
  }

  /** A restore goes through exactly if the backup has data, they may be placed, and the storage
      configuration can be read in case there is storage to restore. */
  lemma RestoreGoesThroughIff(o: RestoreOptions, w: RestoreWorld, fs: Fs, tree: Fs)
    requires BackupAt(fs, o.backupDir, tree) && Sub(fs, w.temp) == map[]
    requires RestoreApart(o, w.temp) && RestoreApart(o, o.backupDir)
    requires RestoreApart(o, o.systemDataDir + ["storage.yml"]) && Apart(w.temp, o.systemDataDir + ["storage.yml"])
    ensures RestoreBackup(o, w, fs).1 <==>
            && ["data"] in tree && (o.overwrite || o.dataDir !in fs)
            && !(o.restoreStorage && ["storage"] in tree && LoadStorageConfig(fs, o.systemDataDir, w.yaml).Broken?)
  {
    OpenHolds(o, w, fs, tree);
    var s := Open(o, w, fs);
    assert RestoreApart(o, s.dir) by {
      SourceApart(o, w, s.dir, o.dataDir);
      SourceApart(o, w, s.dir, Parent(o.dataDir) + [".temp-git-restore"]);
    }
    SubAt(s.fs, s.dir, ["data"]);
    SubAt(s.fs, s.dir, ["storage"]);
    assert o.dataDir in s.fs <==> o.dataDir in fs by {
      OpenKeeps(o, w, fs, o.dataDir);
      InSub(fs, o.dataDir);
      InSub(s.fs, o.dataDir);
    }
    OpenKeepsConfig(o, w, fs);
    StorageGoesThroughIff(o, w, s.dir, s.fs);
  }

  lemma StorageGoesThroughIff(o: RestoreOptions, w: RestoreWorld, src: Path, fs: Fs)
    requires RestoreApart(o, src) && RestoreApart(o, o.systemDataDir + ["storage.yml"])
    ensures StorageRestored(o, w, src, DataRestored(o, w, src, fs)).1 <==>
            !(o.restoreStorage && src + ["storage"] in fs && LoadStorageConfig(fs, o.systemDataDir, w.yaml).Broken?)
  {
    StorageSourceKept(o, w, src, fs);
    StageKeepsPlace(o, w, src, fs, o.systemDataDir + ["storage.yml"]);
    ConfigOnlyReadsItsFile(fs, DataRestored(o, w, src, fs), o.systemDataDir, w.yaml);
  }

  /** Without a tarball and a directory there is nothing to restore, and nothing happens. */
  lemma NothingToRestore(o: RestoreOptions, w: RestoreWorld, fs: Fs)
    requires o.backupDir != [] && !NamesTarball(o.backupDir) && o.backupDir !in fs && TarballOf(o.backupDir) !in fs
    ensures RestoreBackup(o, w, fs) == (fs, false)
  {
  }

  /** Naming the tarball is naming the backup. */
  lemma TarballNamesBackup(o: RestoreOptions, w: RestoreWorld, fs: Fs)
    requires o.backupDir != [] && !NamesTarball(o.backupDir) && TarballOf(o.backupDir) in fs
    ensures RestoreBackup(o.(backupDir := TarballOf(o.backupDir)), w, fs) == RestoreBackup(o, w, fs)
  {
    var o' := o.(backupDir := TarballOf(o.backupDir));
    TarballIsNamed(o.backupDir);
    var s := Open(o, w, fs);
    assert Open(o', w, fs) == s;
    if s.At? {
      StagesIgnoreName(o, o', w, s.dir, s.fs);
    }
  }

  lemma TarballIsNamed(d: Path)
    requires d != []
    ensures NamesTarball(TarballOf(d))
  {
    var name := d[|d| - 1] + ".tar.gz";
    assert TarballOf(d)[|d| - 1] == name && name[|name| - 7..] == ".tar.gz";
  }

  lemma StagesIgnoreName(o: RestoreOptions, o': RestoreOptions, w: RestoreWorld, src: Path, fs: Fs)
    requires o' == o.(backupDir := o'.backupDir)
    ensures StorageRestored(o, w, src, DataRestored(o, w, src, fs)) == StorageRestored(o', w, src, DataRestored(o', w, src, fs))
  {
  }

  /** What was extracted is gone after a restore that goes through. */
  lemma ExtractedIsRemoved(o: RestoreOptions, w: RestoreWorld, fs: Fs, p: Path)
    requires TarballPath(o.backupDir) in fs && RestoreBackup(o, w, fs).1
    ensures w.temp <= p ==> p !in RestoreBackup(o, w, fs).0
  {
  }

  /** The temporary clone is gone when the git directory has been dealt with, whether or not the
      bundle could be cloned. */
  lemma CloneIsRemoved(o: RestoreOptions, w: RestoreWorld, src: Path, fs: Fs, p: Path)
    requires src + ["git"] + ["data.bundle"] in fs
    requires Parent(o.dataDir) + [".temp-git-restore"] <= p && !(o.dataDir + [".git"] <= p)
    ensures p !in GitRestored(o, w, src, fs)
  {
    if w.clone.Some? {
      var git, temp := o.dataDir + [".git"], Parent(o.dataDir) + [".temp-git-restore"];
      GraftElsewhere(Remove(Remove(fs, git), temp), git, w.clone.value, p);
    }
  }

  /** Storage is restored to where a local provider that can be read from the configuration keeps
      it, and without one to `storage` in the system directory. */
  lemma StorageTargetIff(o: RestoreOptions, w: RestoreWorld, fs: Fs, p: Path)
    ensures var loaded := LoadStorageConfig(fs, o.systemDataDir, w.yaml);
            StorageTarget(o, w, fs) == p <==>
            if exists provider, q :: loaded.Config? && Chosen(loaded.config, provider) && KeepsAt(provider, o.systemDataDir, q)
            then exists provider :: Chosen(loaded.config, provider) && KeepsAt(provider, o.systemDataDir, p)
            else p == o.systemDataDir + ["storage"]
  {
    var loaded := LoadStorageConfig(fs, o.systemDataDir, w.yaml);
    if loaded.Config? {
      forall q ensures LocalPath(loaded.config, o.systemDataDir) == Some(q) <==>
                       exists provider :: Chosen(loaded.config, provider) && KeepsAt(provider, o.systemDataDir, q)
      {
        LocalPathIff(loaded.config, o.systemDataDir, q);
      }
    }
  }

  /** A restore that is refused, because the data directory exists and overwriting was not asked
      for, changes nothing outside the temporary directory. */
  lemma RefusedRestoreChangesNothing(o: RestoreOptions, w: RestoreWorld, fs: Fs, e: Path)
    requires o.dataDir in fs && !o.overwrite && Apart(w.temp, o.dataDir) && Apart(w.temp, e)
    ensures var after := RestoreBackup(o, w, fs); !after.1 && Sub(after.0, e) == Sub(fs, e)
  {
    OpenKeeps(o, w, fs, o.dataDir);
    OpenKeeps(o, w, fs, e);
    InSub(fs, o.dataDir);
    if Open(o, w, fs).At? {
      InSub(Open(o, w, fs).fs, o.dataDir);
    }
  }

  // ----- a restore without overwrite

  /** Every path has its parents, as on a real file system. */
  ghost predicate IsTree(fs: Fs) {
    forall p, n | p in fs && 0 <= n <= |p| :: p[..n] in fs
  }

  lemma ParentIsThere(fs: Fs, d: Path, p: Path)
    requires IsTree(fs) && p in fs && d <= p
    ensures d in fs
  {
    assert d == p[..|d|];
  }

  predicate PathKept(fs: Fs, fs': Fs, p: Path) {
    p in fs && p in fs' && fs'[p] == fs[p]
  }

  /** Prefixes of a path outside a directory are outside, and a path below the directory is no
      prefix of it. */
  lemma AboveIsOutside(d: Path, e: Path, p: Path)
    requires !(d <= p) && e <= p
    ensures !(d <= e)
  {
  }

  lemma BelowIsOutside(d: Path, e: Path, p: Path)
    requires !(d <= p) && d <= e
    ensures !(e <= p)
  {
  }

  lemma OpenKeepsPath(o: RestoreOptions, w: RestoreWorld, fs: Fs, p: Path)
    requires p in fs && !(w.temp <= p)
    ensures Open(o, w, fs).At? ==> PathKept(fs, Open(o, w, fs).fs, p)
  {
    var tarball := TarballPath(o.backupDir);
    if tarball in fs && fs[tarball].Tarball? {
      MkdirAt(fs, w.temp, Dir, p);
      GraftElsewhere(Mkdir(fs, w.temp, Dir), w.temp + [fs[tarball].name], fs[tarball].tree, p);
    }
  }

  lemma ReplacedKeepsPath(fs: Fs, from: Path, to: Path, p: Path)
    requires p in fs && to !in fs && !(to <= p)
    ensures PathKept(fs, Replaced(fs, from, to), p)
  {
    var made := Mkdir(fs, Parent(to), Dir);
    MkdirAt(fs, Parent(to), Dir, p);
    GraftElsewhere(made, to, Sub(made, from), p);
  }

  lemma GitRestoredKeepsPath(o: RestoreOptions, w: RestoreWorld, src: Path, fs: Fs, p: Path)
    requires p in fs && !(o.dataDir <= p) && !(Parent(o.dataDir) + [".temp-git-restore"] <= p)
    ensures PathKept(fs, GitRestored(o, w, src, fs), p)
  {
    var git := o.dataDir + [".git"];
    var cleared := Remove(Remove(fs, git), Parent(o.dataDir) + [".temp-git-restore"]);
    BelowIsOutside(o.dataDir, git, p);
    if w.clone.Some? {
      GraftElsewhere(cleared, git, w.clone.value, p);
    }
  }

  lemma DataRestoredKeepsPath(o: RestoreOptions, w: RestoreWorld, src: Path, fs: Fs, p: Path)
    requires p in fs && o.dataDir !in fs && !(o.dataDir <= p) && !(Parent(o.dataDir) + [".temp-git-restore"] <= p)
    ensures PathKept(fs, DataRestored(o, w, src, fs), p)
  {
    ReplacedKeepsPath(fs, src + ["data"], o.dataDir, p);
    GitRestoredKeepsPath(o, w, src, Replaced(fs, src + ["data"], o.dataDir), p);
  }

  lemma StorageRestoredKeepsPath(o: RestoreOptions, w: RestoreWorld, src: Path, fs: Fs, p: Path)
    requires !o.overwrite && p in fs && (StorageTarget(o, w, fs) <= p ==> StorageTarget(o, w, fs) in fs)
    ensures PathKept(fs, StorageRestored(o, w, src, fs).0, p)
  {
    if StorageTarget(o, w, fs) !in fs {
      ReplacedKeepsPath(fs, src + ["storage"], StorageTarget(o, w, fs), p);
    }
  }

  /** The stages keep every path that was there when the data directory was not. */
  lemma StagesKeepPath(o: RestoreOptions, w: RestoreWorld, src: Path, fs: Fs, fs1: Fs, p: Path)
    requires !o.overwrite && IsTree(fs) && o.dataDir !in fs && o.dataDir !in fs1
    requires p in fs && !(w.temp <= p) && !(Parent(o.dataDir) + [".temp-git-restore"] <= p)
    requires forall q | q in fs && !(w.temp <= q) :: PathKept(fs, fs1, q)
    ensures PathKept(fs, StorageRestored(o, w, src, DataRestored(o, w, src, fs1)).0, p)
  {
    var fs2 := DataRestored(o, w, src, fs1);
    var to := StorageTarget(o, w, fs2);
    NotBelowData(o, fs, p);
    assert PathKept(fs, fs1, p);
    DataRestoredKeepsPath(o, w, src, fs1, p);
    if to <= p {
      ParentIsThere(fs, to, p);
      AboveIsOutside(w.temp, to, p);
      AboveIsOutside(Parent(o.dataDir) + [".temp-git-restore"], to, p);
      NotBelowData(o, fs, to);
      assert PathKept(fs, fs1, to);
      DataRestoredKeepsPath(o, w, src, fs1, to);
    }
    StorageRestoredKeepsPath(o, w, src, fs2, p);
  }

  lemma NotBelowData(o: RestoreOptions, fs: Fs, p: Path)
    requires IsTree(fs) && o.dataDir !in fs && p in fs
    ensures !(o.dataDir <= p)
  {
    if o.dataDir <= p {
      ParentIsThere(fs, o.dataDir, p);
    }
  }

  /** A restore without overwrite, whether it is refused, fails on the way or goes through,
      changes nothing that exists outside the two temporary directories. */
  lemma NothingIsOverwritten(o: RestoreOptions, w: RestoreWorld, fs: Fs, p: Path)
    requires !o.overwrite && IsTree(fs)
    requires p in fs && !(w.temp <= p) && !(Parent(o.dataDir) + [".temp-git-restore"] <= p)
    ensures PathKept(fs, RestoreBackup(o, w, fs).0, p)
  {
    var s := Open(o, w, fs);
    if s.At? {
      forall q | q in fs && !(w.temp <= q) ensures PathKept(fs, s.fs, q) {
        OpenKeepsPath(o, w, fs, q);
      }
      assert PathKept(fs, s.fs, p);
      if o.dataDir !in s.fs && s.dir + ["data"] in s.fs {
        StagesKeepPath(o, w, s.dir, fs, s.fs, p);
      }
    }
  }

  // ----- the service, step by step

  class Disk {
    var nodes: Fs

    constructor (nodes: Fs)
      ensures this.nodes == nodes
    {
      this.nodes := nodes;
    }

    method MakeDir(d: Path)
      modifies this
      ensures nodes == Mkdir(old(nodes), d, Dir)
    {
      nodes := Mkdir(nodes, d, Dir);
    }

    method Copy(from: Path, to: Path)
      modifies this
      ensures nodes == Graft(old(nodes), to, Sub(old(nodes), from))
    {
      nodes := Graft(nodes, to, Sub(nodes, from));
    }

    method Rm(d: Path)
      modifies this
      ensures nodes == Remove(old(nodes), d)
    {
      nodes := Remove(nodes, d);
    }

    method WriteNode(p: Path, node: Node)
      modifies this
      ensures nodes == Write(old(nodes), p, node)
    {
      nodes := Write(nodes, p, node);
    }

    method CopyStorage(o: CreateOptions, w: CreateWorld)
      modifies this
      ensures nodes == WithStorage(o, w, old(nodes))
    {
      var storageConfig := LoadStorageConfig(nodes, o.systemDataDir, w.yaml);
      if o.includeStorage && storageConfig.Config? {
        var providerPath := LocalPath(storageConfig.config, o.systemDataDir);
        if providerPath.Some? && providerPath.value in nodes {
          MakeDir(BackupDir(o) + ["storage"]);
          Copy(providerPath.value, BackupDir(o) + ["storage"]);
        }
        WriteNode(BackupDir(o) + ["storage-config.json"], File(w.minimalConfig));
      }
    }

    method Create(o: CreateOptions, w: CreateWorld) returns (ok: bool)
      modifies this
      ensures (nodes, ok) == CreateBackup(o, w, old(nodes))
    {
      var backupDir := o.outputDir + [o.timestamp];
      MakeDir(backupDir);
      if o.dataDir !in nodes {
        return false;
      }
      Copy(o.dataDir, backupDir + ["data"]);
      if o.includeGitBundle && o.dataDir + [".git"] in nodes {
        MakeDir(backupDir + ["git"]);
        if w.bundle.Some? {
          WriteNode(backupDir + ["git"] + ["data.bundle"], File(w.bundle.value));
        }
      }
      CopyStorage(o, w);
      if w.storageFiles.Some? {
        WriteNode(backupDir + ["storage-files.json"], File(w.storageFiles.value));
      }
      WriteNode(backupDir + ["metadata.json"], File(w.metadata));
      if o.compress && w.tarWorks {
        WriteNode(TarballOf(backupDir), Tarball(o.timestamp, Sub(nodes, backupDir)));
      }
      return true;
    }

    method ReplaceTree(from: Path, to: Path)
      modifies this
      ensures nodes == Replaced(old(nodes), from, to)
    {
      if to in nodes {
        Rm(to);
      }
      MakeDir(Parent(to));
      Copy(from, to);
    }

    method RestoreStorage(o: RestoreOptions, w: RestoreWorld, src: Path) returns (ok: bool)
      modifies this
      ensures (nodes, ok) == StorageRestored(o, w, src, old(nodes))
    {
      if !o.restoreStorage || src + ["storage"] !in nodes {
        return true;
      }
      var storageConfig := LoadStorageConfig(nodes, o.systemDataDir, w.yaml);
      if storageConfig.Broken? {
        return false;
      }
      var storageDir := o.systemDataDir + ["storage"];
      if storageConfig.Config? {
        storageDir := LocalPath(storageConfig.config, o.systemDataDir).GetOr(storageDir);
      }
      if storageDir in nodes && !o.overwrite {
        return true;
      }
      ReplaceTree(src + ["storage"], storageDir);
      return true;
    }

    method RestoreGit(o: RestoreOptions, w: RestoreWorld, src: Path)
      modifies this
      ensures nodes == GitRestored(o, w, src, old(nodes))
    {
      if src + ["git"] + ["data.bundle"] in nodes {
        Rm(o.dataDir + [".git"]);
        Rm(Parent(o.dataDir) + [".temp-git-restore"]);
        if w.clone.Some? {
          nodes := Graft(nodes, o.dataDir + [".git"], w.clone.value);
        }
      }
    }

    method Restore(o: RestoreOptions, w: RestoreWorld) returns (ok: bool)
      modifies this
      ensures (nodes, ok) == RestoreBackup(o, w, old(nodes))
    {
      var src, extracted := o.backupDir, false;
      var tarballPath := TarballPath(o.backupDir);
      if tarballPath in nodes {
        if !nodes[tarballPath].Tarball? {
          return false;
        }
        var archive := nodes[tarballPath];
        src, extracted := w.temp + [archive.name], true;
        MakeDir(w.temp);
        nodes := Graft(nodes, src, archive.tree);
      } else if o.backupDir !in nodes {
        return false;
      }
      if src + ["data"] !in nodes {
        return false;
      }
      if o.dataDir in nodes && !o.overwrite {
        return false;
      }
      ReplaceTree(src + ["data"], o.dataDir);
      RestoreGit(o, w, src);
      ok := RestoreStorage(o, w, src);
      if ok && extracted {
        Rm(w.temp);
      }
    }
  }
}
