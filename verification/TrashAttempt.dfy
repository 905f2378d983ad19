/** Moving one file into the trash (crates/trashd-preload/src/lib.rs, `try_trash`
  * and what it calls).
  *
  * The disk is a source path and a store with files/ and info/.  Before every
  * system call the environment takes a turn: other tools may claim names in the
  * store, put their file in the place of one of ours, and replace, rewrite or
  * remove the source, and the call itself may fail with any error.  The turns
  * are an arbitrary function of time, so every statement here holds for all of
  * them.  Calls that undo one of our own steps have failures of their own:
  * these are the ones that can leave something of ours behind.
  */
module TrashAttempt {
  import opened Wrappers
  import opened Bytes
  import opened TrashNames

  type Name = Text
  type Content = Text

  // ---------------------------------------------------------------- files

  datatype Kind = Regular | Symlink | Directory | Fifo | Socket | Device

  /** What lstat tells; two equal ones are the same version of the same inode, which is what
    * `same_copy_source` compares. */
  datatype Stat = Stat(dev: nat, ino: nat, kind: Kind, version: nat)

  datatype Entry = Entry(content: Content, dev: nat, ino: nat)

  predicate SameInode(a: Stat, b: Stat) {
    a.dev == b.dev && a.ino == b.ino
  }

  const EEXIST := 17
  const ENOENT := 2
  const EXDEV := 18
  const EINVAL := 22
  const ENOSYS := 38
  const EOPNOTSUPP := 95
  const EBUSY := 16
  const EISDIR := 21

  /** The environment's turn before a system call, and that call's fate. */
  datatype Turn = Turn(
    newFiles: map<Name, Entry>,        // claimed by other tools, where free
    newInfo: map<Name, Content>,
    seizes: map<Name, Entry>,          // put in the place of files of ours
    source: Option<Option<Stat>>,      // Some(x): the source path now names x
    rewrites: nat,                     // times the opened source inode was written
    garbage: Content,                  // what a copy of a changing file contains
    inode: (nat, nat),                 // identity given to a file created now
    fails: Option<int>,                // the call fails with this error
    undoFails: Option<int>             // if it undoes a step of ours, or finds out how, with this one
  )

  predicate Submap<K, V(==)>(a: map<K, V>, b: map<K, V>) {
    forall k :: k in a ==> k in b && b[k] == a[k]
  }

  function Without<K, V>(m: map<K, V>, k: K): map<K, V> {
    m - {k}
  }

  /** `here` after others brought theirs, where neither they nor we had the name. */
  function Joined<V>(here: map<Name, V>, mine: set<Name>, brought: map<Name, V>, ghost bound: set<Name>)
    : (r: map<Name, V>)
    requires here.Keys !! mine && here.Keys <= bound && brought.Keys <= bound
    ensures Submap(here, r) && r.Keys !! mine && r.Keys <= bound
    ensures brought == map[] ==> r == here
  {
    (map k | k in brought && k !in mine && k !in here :: brought[k]) + here
  }

  /** The names we put a file under, with what stands there, and those of them where others have put
    * theirs over ours. */
  datatype Files = Files(ours: map<Name, Entry>, lost: set<Name>)

  /** What others make of our files in one turn. */
  function Seized(f: Files, seizes: map<Name, Entry>): (r: Files)
    ensures r.ours.Keys == f.ours.Keys
    ensures f.lost <= f.ours.Keys ==> f.lost <= r.lost <= r.ours.Keys
    ensures forall k :: k in r.ours && k !in r.lost ==> r.ours[k] == f.ours[k]
    ensures seizes == map[] ==> r == f
    ensures f.ours == map[] ==> r.ours == map[]
  {
    Files(map k | k in f.ours :: if k in seizes then seizes[k] else f.ours[k], f.lost + f.ours.Keys * seizes.Keys)
  }

  /** What the turns act on, at one moment. */
  datatype View = View(clock: nat, source: Option<Stat>, past: set<Stat>, taken: Option<Stat>,
                       others: map<Name, Entry>, othersInfo: map<Name, Content>)

  /** How one round of the claim loop ended. */
  datatype Round = Moved | GaveUp | Occupied | Refused(errno: int)

  datatype Claim = Claimed | Taken | Failed

  datatype Attempt = Trashed | NotTrashed | UnsafeStore | Error(errno: int)

  /** What `trash_dir_for` found. */
  datatype Store = Available | Unavailable | Unsafe | LockFailed(errno: int)

  const MAX_CLAIM_ATTEMPTS := 8

  // ---------------------------------------------------------------- the disk

  class Disk {
    const env: nat -> Turn
    const contentOf: Stat -> Content   // what a version of an inode contains
    const universe: set<Name>          // every name other tools will ever claim
    var clock: nat
    var source: Option<Stat>
    var past: set<Stat>                // versions the source path no longer names

    // The store, by owner: `others` is everything this call did not make.
    var others: map<Name, Entry>
    var othersInfo: map<Name, Content>
    var ours: map<Name, Entry>
    var lost: set<Name>                // of these names, where others put their file over ours
    var oursInfo: map<Name, Content>

    ghost var taken: Option<Stat>      // what this call removed from the source path

    constructor (env: nat -> Turn, contentOf: Stat -> Content, universe: set<Name>, source: Option<Stat>,
                 files: map<Name, Entry>, info: map<Name, Content>)
      requires files.Keys <= universe && info.Keys <= universe
      requires forall k :: env(k).newFiles.Keys <= universe && env(k).newInfo.Keys <= universe
      ensures Valid() && ours == map[] && oursInfo == map[] && taken.None? && clock == 0
      ensures this.env == env && this.universe == universe && this.source == source
      ensures others == files && othersInfo == info
    {
      this.env, this.contentOf, this.universe := env, contentOf, universe;
      this.source, past, clock := source, {}, 0;
      others, othersInfo, ours, lost, oursInfo := files, info, map[], {}, map[];
      taken := None;
    }

    ghost predicate Valid()
      reads this
    {
      (source.Some? ==> source.value !in past) && StoreValid()
    }

    ghost predicate StoreValid()
      reads this`others, this`othersInfo, this`ours, this`oursInfo, this`lost
    {
      && ours.Keys !! others.Keys && oursInfo.Keys !! othersInfo.Keys && lost <= ours.Keys
      && others.Keys <= universe && othersInfo.Keys <= universe
      && forall k :: env(k).newFiles.Keys <= universe && env(k).newInfo.Keys <= universe
    }

    lemma OursAreNotOthers()
      requires Valid()
      ensures forall k :: k in ours ==> k !in others
    {}

    /** Every name in the store, now or later claimed by others, is in `bound`. */
    ghost predicate Within(bound: set<Name>)
      reads this
    {
      universe <= bound && oursInfo.Keys <= bound && ours.Keys <= bound
    }

    predicate HasFile(name: Name)
      reads this
    {
      name in ours || name in others
    }

    predicate HasInfo(name: Name)
      reads this
    {
      name in oursInfo || name in othersInfo
    }

    /** No file of ours is left in the store: at most what others put in its place. */
    ghost predicate NoFileLeft()
      reads this
    {
      ours.Keys <= lost
    }

    ghost predicate Clean()
      reads this
    {
      NoFileLeft() && oursInfo == map[]
    }

    // -------------------------------------------------------------- what the turns brought

    /** In some of these turns a call that undoes a step of ours fails. */
    ghost predicate UndoFails(from: nat, end: nat) {
      exists k: nat :: from <= k < end && env(k).undoFails.Some?
    }

    /** In these turns nobody puts a file in the place of one of ours. */
    ghost predicate Unseized(from: nat, end: nat) {
      forall k: nat :: from <= k < end ==> env(k).seizes == map[]
    }

    /** In these turns nobody touches the source path. */
    ghost predicate SourceStill(from: nat, end: nat) {
      forall k: nat :: from <= k < end ==> env(k).source.None?
    }

    predicate IsQuiet(k: nat) {
      var t := env(k);
      t.source.None? && t.rewrites == 0 && t.newFiles == map[] && t.newInfo == map[] && t.seizes == map[]
    }

    predicate IsCalm(k: nat) {
      IsQuiet(k) && env(k).fails.None? && env(k).undoFails.None?
    }

    /** In these turns nobody else moves. */
    ghost predicate Quiet(from: nat, end: nat) {
      forall k: nat :: from <= k < end ==> IsQuiet(k)
    }

    /** In these turns nothing fails and nobody else moves. */
    ghost predicate Calm(from: nat, end: nat) {
      forall k: nat :: from <= k < end ==> IsCalm(k)
    }

    /** A version the source path has ceased to name stays past. */
    twostate predicate SourceFollowed()
      reads this
    {
      && old(past) <= past
      && (old(source).Some? && source != old(source) ==> old(source).value in past)
    }

    /** What holds of some later turns holds of all of them. */
    lemma TurnsWithin(from: nat, later: nat, end: nat)
      requires from <= later <= end
      ensures UndoFails(from, later) || UndoFails(later, end) ==> UndoFails(from, end)
      ensures Calm(from, end) ==> Calm(from, later) && Calm(later, end)
      ensures Quiet(from, end) ==> Quiet(from, later) && Quiet(later, end)
      ensures later < end && Calm(from, end) ==> IsCalm(later)
      ensures later < end && env(later).undoFails.Some? ==> UndoFails(from, end)
      ensures Calm(from, end) ==> Quiet(from, end)
      ensures Quiet(from, end) ==> Unseized(from, end)
      ensures Unseized(from, end) ==> Unseized(from, later) && Unseized(later, end)
      ensures SaysExists(from, later) || SaysExists(later, end) ==> SaysExists(from, end)
    {
      if Calm(from, end) {
        forall k: nat | from <= k < end ensures IsQuiet(k) {
          assert IsCalm(k);
        }
      }
      if Quiet(from, end) {
        forall k: nat | from <= k < end ensures env(k).seizes == map[] {
          assert IsQuiet(k);
        }
      }
    }

    ghost function Now(): View
      reads this
    {
      View(clock, source, past, taken, others, othersInfo)
    }

    /** What holds from one moment to a later one: entries of others stay; while nobody touches the
      * source path it only loses what we take; and in quiet turns the others' part of the store
      * stays as it is. */
    ghost predicate Leads(a: View, b: View) {
      && Submap(a.others, b.others) && Submap(a.othersInfo, b.othersInfo)
      && (a.taken.Some? ==> b.taken == a.taken)
      && (SourceStill(a.clock, b.clock) ==>
            if b.taken == a.taken then b.source == a.source && b.past == a.past
            else b.taken == a.source && b.source.None?)
      && (Quiet(a.clock, b.clock) ==> a.others == b.others && a.othersInfo == b.othersInfo)
    }

    lemma SeizedIsKept(f: Files, from: nat)
      requires f.lost <= f.ours.Keys
      ensures Kept(f, Seized(f, env(from).seizes), from, from + 1)
    {
      hide Seized;
      assert Unseized(from, from + 1) ==> env(from).seizes == map[];
    }

    lemma OneTurn(a: View, b: View)
      requires b.clock == a.clock + 1 && b.taken == a.taken
      requires Submap(a.others, b.others) && Submap(a.othersInfo, b.othersInfo)
      requires env(a.clock).source.None? ==> b.source == a.source && b.past == a.past
      requires env(a.clock).newFiles == map[] ==> b.others == a.others
      requires env(a.clock).newInfo == map[] ==> b.othersInfo == a.othersInfo
      ensures Leads(a, b)
    {
      hide Submap;
      assert SourceStill(a.clock, b.clock) ==> env(a.clock).source.None?;
      assert Quiet(a.clock, b.clock) ==> IsQuiet(a.clock);
    }

    lemma LeadsOn(a: View, b: View, c: View)
      requires Leads(a, b) && Leads(b, c) && a.clock <= b.clock <= c.clock
      ensures Leads(a, c)
    {
      assert SourceStill(a.clock, c.clock) ==> SourceStill(a.clock, b.clock) && SourceStill(b.clock, c.clock);
      assert Quiet(a.clock, c.clock) ==> Quiet(a.clock, b.clock) && Quiet(b.clock, c.clock);
    }

    lemma LeadsNowhere(a: View)
      ensures Leads(a, a)
    {}

    lemma TurnsOfLeads(a: View, b: View)
      requires Leads(a, b)
      ensures Submap(a.others, b.others) && Submap(a.othersInfo, b.othersInfo)
      ensures SourceStill(a.clock, b.clock) ==>
                if b.taken == a.taken then b.source == a.source else b.taken == a.source && b.source.None?
    {}

    lemma KeptOthers(a: View, b: View)
      requires Leads(a, b)
      ensures Submap(a.others, b.others) && Submap(a.othersInfo, b.othersInfo)
      ensures a.others.Keys <= b.others.Keys
    {}

    /** In quiet turns nothing changes but what we do. */
    lemma QuietKeeps(a: View, b: View)
      requires Leads(a, b) && Quiet(a.clock, b.clock)
      ensures a.others == b.others && a.othersInfo == b.othersInfo
      ensures if b.taken == a.taken then b.source == a.source && b.past == a.past else b.taken == a.source
    {
      forall k: nat | a.clock <= k < b.clock ensures env(k).source.None? {
        assert IsQuiet(k);
      }
    }

    lemma CalmKeeps(a: View, b: View)
      requires Leads(a, b) && Calm(a.clock, b.clock)
      ensures a.others == b.others && a.othersInfo == b.othersInfo
      ensures b.taken == a.taken ==> b.source == a.source && b.past == a.past
    {
      forall k: nat | a.clock <= k < b.clock ensures IsQuiet(k) {
        assert IsCalm(k);
      }
      QuietKeeps(a, b);
    }

    ghost function Mine(): Files
      reads this
    {
      Files(ours, lost)
    }

    /** What becomes of our files while we leave them alone: others may put theirs over them. */
    ghost predicate Kept(a: Files, b: Files, from: nat, end: nat) {
      && b.ours.Keys == a.ours.Keys && a.lost <= b.lost
      && (forall k :: k in b.ours && k !in b.lost ==> b.ours[k] == a.ours[k])
      && (Unseized(from, end) ==> b == a)
      && (a.ours == map[] ==> b.ours == map[])
    }

    lemma KeptOn(a: Files, b: Files, c: Files, from: nat, mid: nat, end: nat)
      requires Kept(a, b, from, mid) && Kept(b, c, mid, end) && from <= mid <= end
      ensures Kept(a, c, from, end)
    {
      TurnsWithin(from, mid, end);
    }

    lemma KeptSays(a: Files, b: Files, from: nat, end: nat)
      requires Kept(a, b, from, end)
      ensures b.ours.Keys == a.ours.Keys && a.lost <= b.lost && (a.ours == map[] ==> b.ours == map[])
      ensures forall k :: k in b.ours && k !in b.lost ==> b.ours[k] == a.ours[k]
      ensures Unseized(from, end) ==> b == a
    {}

    lemma KeptNothing(a: Files, b: Files, from: nat, end: nat)
      requires Kept(a, b, from, end) && a.ours == map[]
      ensures b.ours == map[]
    {}

    twostate predicate FilesKept()
      reads this
    {
      Kept(old(Mine()), Mine(), old(clock), clock)
    }

    twostate predicate Went()
      reads this
    {
      old(clock) < clock && Leads(old(Now()), Now())
    }

    /** What others do to the store in a turn. */
    method StoreTurn(t: Turn)
      requires StoreValid() && t == env(clock)
      modifies this`others, this`othersInfo, this`ours, this`lost
      ensures StoreValid() && Mine() == Seized(old(Mine()), t.seizes)
      ensures Submap(old(others), others) && Submap(old(othersInfo), othersInfo)
      ensures t.newFiles == map[] ==> others == old(others)
      ensures t.newInfo == map[] ==> othersInfo == old(othersInfo)
    {
      hide Joined, Submap, Seized;
      others := Joined(others, ours.Keys, t.newFiles, universe);
      othersInfo := Joined(othersInfo, oursInfo.Keys, t.newInfo, universe);
      var f := Seized(Files(ours, lost), t.seizes);
      ours, lost := f.ours, f.lost;
    }

    /** What the source path names after a turn: a version that is past does not come back. */
    static function SourceAfter(source: Option<Stat>, past: set<Stat>, t: Turn): Option<Stat> {
      if t.source.None? || (t.source.value.Some? && t.source.value.value in past) then source else t.source.value
    }

    /** The environment moves.  A version never comes back: taking a file away and putting it
      * back changes its ctime. */
    method Tick() returns (t: Turn)
      requires Valid()
      modifies this`clock, this`others, this`othersInfo, this`source, this`past, this`ours, this`lost
      ensures Valid() && Went() && SourceFollowed() && FilesKept()
      ensures Mine() == Seized(old(Mine()), t.seizes)
      ensures t == env(old(clock)) && clock == old(clock) + 1
      ensures source == SourceAfter(old(source), old(past), t)
    {
      hide Leads, Submap, Seized, Kept;
      ghost var v, mine := Now(), Mine();
      SeizedIsKept(mine, clock);
      hide StoreValid;
      t := env(clock);
      StoreTurn(t);
      var next := SourceAfter(source, past, t);
      if next != source {
        if source.Some? {
          past := past + {source.value};
        }
        source := next;
      }
      clock := clock + 1;
      OneTurn(v, Now());
    }

    // -------------------------------------------------------------- system calls

    /** open(O_CREAT|O_EXCL) of a sidecar. */
    method CreateInfo(name: Name) returns (r: Claim)
      requires Valid()
      modifies this
      ensures Valid() && Went() && clock == old(clock) + 1
      ensures FilesKept() && (old(ours) == map[] ==> ours == map[]) && taken == old(taken)
      ensures r == Failed <==> env(old(clock)).fails.Some?
      ensures r == Claimed ==> name !in old(oursInfo) && oursInfo == old(oursInfo)[name := []]
      ensures r != Claimed ==> oursInfo == old(oursInfo)
      ensures r == Taken ==> HasInfo(name) && (old(HasInfo(name)) || !IsQuiet(old(clock)))
    {
      var t := Tick();
      if t.fails.Some? {
        return Failed;
      }
      if HasInfo(name) {
        return Taken;
      }
      oursInfo := oursInfo[name := []];
      return Claimed;
    }

    /** write_all through the descriptor that claimed the name. */
    method WriteInfo(name: Name, text: Content) returns (ok: bool)
      requires Valid() && name in oursInfo
      modifies this
      ensures Valid() && Went() && clock == old(clock) + 1
      ensures FilesKept() && (old(ours) == map[] ==> ours == map[]) && taken == old(taken)
      ensures ok == env(old(clock)).fails.None?
      ensures oursInfo.Keys == old(oursInfo.Keys) && Without(oursInfo, name) == Without(old(oursInfo), name)
      ensures ok ==> oursInfo == old(oursInfo)[name := text]
    {
      var t := Tick();
      oursInfo := oursInfo[name := if t.fails.Some? then t.garbage else text];
      ok := t.fails.None?;
    }

    /** remove_file of our sidecar; its failure is ignored by every caller. */
    method RemoveInfo(name: Name)
      requires Valid() && name in oursInfo
      modifies this
      ensures Valid() && Went() && clock == old(clock) + 1
      ensures FilesKept() && (old(ours) == map[] ==> ours == map[]) && taken == old(taken)
      ensures oursInfo == if env(old(clock)).undoFails.Some? then old(oursInfo) else Without(old(oursInfo), name)
    {
      var t := Tick();
      if t.undoFails.None? {
        oursInfo := Without(oursInfo, name);
      }
    }

    static function IdOf(e: Entry): (nat, nat) {
      (e.dev, e.ino)
    }

    function Identity(name: Name): (nat, nat)
      requires HasFile(name)
      reads this
    {
      IdOf(if name in ours then ours[name] else others[name])
    }

    /** What stands under a name of ours after a turn. */
    static function Standing(e: Entry, seizes: map<Name, Entry>, name: Name): Entry {
      if name in seizes then seizes[name] else e
    }

    /** Whether lstat finds an entry in files/; a failing lstat finds none. */
    method LstatFile(name: Name) returns (found: Option<(nat, nat)>)
      requires Valid()
      modifies this
      ensures Valid() && Went() && SourceFollowed() && clock == old(clock) + 1
      ensures FilesKept() && (old(ours) == map[] ==> ours == map[]) && oursInfo == old(oursInfo) && taken == old(taken)
      ensures found == if env(old(clock)).fails.None? && HasFile(name) then Some(Identity(name)) else None
    {
      var t := Tick();
      found := if t.fails.None? && HasFile(name) then Some(Identity(name)) else None;
    }

    /** The same lstat where it only serves to know our own copy again. */
    method LstatOwn(name: Name) returns (found: Option<(nat, nat)>)
      requires Valid()
      modifies this
      ensures Valid() && Went() && SourceFollowed() && clock == old(clock) + 1
      ensures Mine() == Seized(old(Mine()), env(old(clock)).seizes)
      ensures FilesKept() && (old(ours) == map[] ==> ours == map[]) && oursInfo == old(oursInfo) && taken == old(taken)
      ensures found == if env(old(clock)).undoFails.None? && HasFile(name) then Some(Identity(name)) else None
    {
      var t := Tick();
      found := if t.undoFails.None? && HasFile(name) then Some(Identity(name)) else None;
    }

    method LstatSource() returns (stat: Option<Stat>)
      requires Valid()
      modifies this
      ensures Valid() && Went() && SourceFollowed() && clock == old(clock) + 1
      ensures FilesKept() && (old(ours) == map[] ==> ours == map[]) && oursInfo == old(oursInfo) && taken == old(taken)
      ensures stat == if env(old(clock)).fails.None? then source else None
      ensures source == SourceAfter(old(source), old(past), env(old(clock)))
    {
      var t := Tick();
      stat := if t.fails.None? then source else None;
    }

    /** renameat2(RENAME_NOREPLACE) of the source to files/`name`; None is success. */
    method RenameNoReplace(name: Name) returns (error: Option<int>)
      requires Valid() && taken.None? && ours == map[]
      modifies this
      ensures Valid() && Went() && clock == old(clock) + 1
      ensures oursInfo == old(oursInfo)
      ensures error.Some? ==>
                && ours == map[] && taken == old(taken)
                && (env(old(clock)).fails == error || (error == Some(ENOENT) && source.None?)
                    || (error == Some(EEXIST) && HasFile(name)))
      ensures error.None? ==>
                && taken.Some? && source.None? && name !in others && lost == {}
                && ours == map[name := Entry(contentOf(taken.value), taken.value.dev, taken.value.ino)]
                && (taken == old(source) || env(old(clock)).source.Some?) && env(old(clock)).fails.None?
    {
      var t := Tick();
      if t.fails.Some? {
        return t.fails;
      }
      if source.None? {
        return Some(ENOENT);
      }
      if HasFile(name) {
        return Some(EEXIST);
      }
      var moved := source.value;
      ours := ours[name := Entry(contentOf(moved), moved.dev, moved.ino)];
      taken, past := Some(moved), past + {moved};
      source := None;
      return None;
    }

    /** The marked unlink of the source; None is success. */
    method UnlinkSource() returns (error: Option<int>)
      requires Valid() && taken.None?
      modifies this
      ensures Valid() && Went() && clock == old(clock) + 1
      ensures FilesKept() && (old(ours) == map[] ==> ours == map[]) && oursInfo == old(oursInfo)
      ensures error.Some? ==> taken == old(taken)
      ensures error.None? ==> taken.Some? && source.None?
      ensures error.None? ==> taken == old(source) || env(old(clock)).source.Some?
      ensures error.Some? ==> env(old(clock)).fails.Some? || source.None? || source.value.kind.Directory?
      ensures env(old(clock)).fails.Some? ==> error == env(old(clock)).fails
    {
      var t := Tick();
      if t.fails.Some? {
        return t.fails;
      }
      if source.None? {
        return Some(ENOENT);
      }
      if source.value.kind.Directory? {
        return Some(EISDIR);
      }
      taken, past := source, past + {source.value};
      source := None;
      return None;
    }

    /** readlink of the source. */
    method ReadLink() returns (target: Option<Content>)
      requires Valid()
      modifies this
      ensures Valid() && Went() && SourceFollowed()
      ensures FilesKept() && (old(ours) == map[] ==> ours == map[]) && oursInfo == old(oursInfo) && taken == old(taken)
      ensures clock == old(clock) + 1
      ensures target.Some? ==> source.Some? && target.value == contentOf(source.value)
      ensures target.None? ==> env(old(clock)).fails.Some? || source.None? || !source.value.kind.Symlink?
    {
      var t := Tick();
      if t.fails.Some? || source.None? || !source.value.kind.Symlink? {
        return None;
      }
      return Some(contentOf(source.value));
    }

    /** Exclusive creation of a file or link in files/. */
    method CreateFile(name: Name, content: Content) returns (error: Option<int>, t: Turn)
      requires Valid() && ours == map[]
      modifies this
      ensures Valid() && Went() && SourceFollowed() && lost == {}
      ensures oursInfo == old(oursInfo) && taken == old(taken) && t == env(old(clock)) && clock == old(clock) + 1
      ensures error.Some? ==> ours == map[] && (t.fails.Some? || HasFile(name))
      ensures error.None? ==> ours == map[name := Entry(content, t.inode.0, t.inode.1)]
    {
      t := Tick();
      if t.fails.Some? {
        return t.fails, t;
      }
      if HasFile(name) {
        return Some(EEXIST), t;
      }
      ours := map[name := Entry(content, t.inode.0, t.inode.1)];
      return None, t;
    }

    /** remove_file under the name we gave our copy; its failure is ignored. */
    method RemoveFile(name: Name)
      requires Valid() && name in ours
      modifies this
      ensures Valid() && Went() && clock == old(clock) + 1
      ensures oursInfo == old(oursInfo) && taken == old(taken)
      ensures env(old(clock)).undoFails.Some? ==> FilesKept()
      ensures env(old(clock)).undoFails.None? ==> ours.Keys == old(ours).Keys - {name}
    {
      var t := Tick();
      if t.undoFails.None? {
        ours, lost := Without(ours, name), lost - {name};
      }
    }

    // -------------------------------------------------------------- claiming a name

    predicate IsFree(name: Name)
      reads this
    {
      !HasFile(name) && !HasInfo(name)
    }

    /** O_EXCL the sidecar and make sure no data file sits under the same name. A failing lstat
      * passes for a free name, and it is the last call then. */
    method TryClaim(name: Name, ghost bound: set<Name>) returns (r: Claim)
      requires Valid() && Within(bound) && ours == map[]
      modifies this
      ensures Valid() && Went()
      ensures ours == map[] && taken == old(taken)
      ensures r == Claimed ==>
                && name !in old(oursInfo) && oursInfo == old(oursInfo)[name := []]
                && (!HasFile(name) || env(clock - 1).fails.Some?)
      ensures r != Claimed ==> oursInfo == old(oursInfo) || oursInfo == old(oursInfo)[name := []]
      ensures r != Claimed && !UndoFails(old(clock), clock) ==> oursInfo == old(oursInfo)
      ensures oursInfo.Keys <= if r == Claimed then bound + {name} else bound
      ensures r == Taken ==> name in bound
      ensures r == Failed ==> !Calm(old(clock), clock)
      ensures env(old(clock)).fails.Some? ==> r == Failed
      ensures old(IsFree(name)) && Calm(old(clock), old(clock) + 2) ==> r == Claimed && clock == old(clock) + 2
    {
      hide Leads, Kept, Unseized, UndoFails, Calm, Submap, Quiet, SourceStill, SaysExists, IsQuiet;
      ghost var v := Now();
      TurnsWithin(v.clock, v.clock + 1, v.clock + 2);
      TurnsWithin(v.clock, v.clock, v.clock + 2);
      r := CreateInfo(name);
      TurnsWithin(v.clock, v.clock, clock);
      if r == Claimed {
        ghost var u := Now();
        var found := LstatFile(name);
        LeadsOn(v, u, Now());
        if Calm(v.clock, clock) { CalmKeeps(v, Now()); }
        if found.Some? {
          u := Now();
          RemoveInfo(name);
          LeadsOn(v, u, Now());
          assert Without(old(oursInfo)[name := []], name) == old(oursInfo);
          TurnsWithin(v.clock, u.clock, clock);
          return Taken;
        }
      }
    }

    /** What of the basename leaves room for a suffix. */
    static function Short(base: Name): Name {
      base[..FloorBoundary(base, MAX_BASE)]
    }

    /** The name is the shortened basename or a collision name made from it; with a timestamp of 14
      * digits it fits beside its sidecar, and it is never cut inside a character. */
    static ghost predicate IsProper(name: Name, base: Name, ts: Text, process: u32) {
      && (|| name == Short(base) || name == Candidate(Short(base), TimestampSuffix(ts))
          || exists n: u64 :: name == Candidate(Short(base), SequenceSuffix(ts, process, n)))
      && (|ts| == 14 ==> |name| + SIDECAR_SUFFIX <= NAME_LIMIT)
      && (IsUtf8(base) && IsUtf8(ts) ==> IsUtf8(name))
    }

    static lemma ShortIsProper(base: Name, ts: Text, process: u32)
      ensures IsProper(Short(base), base, ts, process)
      ensures IsUtf8(base) ==> IsUtf8(Short(base))
    {
      if IsUtf8(base) { PrefixAtBoundary(base, FloorBoundary(base, MAX_BASE)); }
    }

    static lemma CandidatesAreProper(base: Name, ts: Text, process: u32, n: u64)
      ensures IsProper(Candidate(Short(base), TimestampSuffix(ts)), base, ts, process)
      ensures IsProper(Candidate(Short(base), SequenceSuffix(ts, process, n)), base, ts, process)
    {
      hide Candidate, Short, IsUtf8;
      ShortIsProper(base, ts, process);
      SuffixIsUtf8(ts, process, n);
      CandidateFits(Short(base), TimestampSuffix(ts));
      CandidateFits(Short(base), SequenceSuffix(ts, process, n));
      if |ts| == 14 { EveryTriedNameFits(Short(base), ts, process, n); }
    }

    /** The collision names, one after the other: they never repeat, so only finitely many can be
      * taken. */
    method NumberedId(sequence: Sequence, names: CollisionNames, ghost base: Name, ghost bound: set<Name>)
      returns (id: Option<Name>)
      requires Valid() && Within(bound) && names.Valid() && ours == map[] && names.basename == Short(base)
      requires sequence.Start() + |bound| + 1 < SEQUENCE_END
      modifies this, sequence, names
      ensures Valid() && Went()
      ensures id.Some? ==> IsProper(id.value, base, names.timestamp, names.process)
      ensures ours == map[] && taken == old(taken)
      ensures oursInfo.Keys <= if id.Some? then bound + {id.value} else bound
      ensures id.Some? ==> id.value in oursInfo && (!HasFile(id.value) || env(clock - 1).fails.Some?)
      ensures id.Some? && !UndoFails(old(clock), clock) ==>
                id.value !in old(oursInfo) && oursInfo == old(oursInfo)[id.value := []]
      ensures id.None? && !UndoFails(old(clock), clock) ==> oursInfo == old(oursInfo)
      ensures id.None? ==> !Calm(old(clock), clock)
      ensures sequence.Start() <= old(sequence.Start()) + |bound| + 1
    {
      hide Leads, Calm, UndoFails, Drawn, IsProper, StoreValid, Kept, Unseized;
      ghost var v, start := Now(), sequence.Start();
      LeadsNowhere(v);
      DrawnNone(names, start);
      while true
        invariant Valid() && v.clock <= clock && Leads(v, Now()) && Within(bound) && names.Valid()
        invariant ours == map[] && taken == old(taken)
        invariant !UndoFails(old(clock), clock) ==> oursInfo == old(oursInfo)
        invariant start <= sequence.Start() <= start + |bound|
        invariant Drawn(names, start, sequence.Start()) <= bound
        decreases start + |bound| - sequence.Start(), if names.first then 1 else 0
      {
        ghost var u, before, wasFirst := Now(), sequence.Start(), names.first;
        var candidate := names.Next(sequence);
        CandidatesAreProper(base, names.timestamp, names.process, before);
        var r := TryClaim(candidate, bound);
        LeadsOn(v, u, Now());
        TurnsWithin(v.clock, u.clock, clock);
        if r == Claimed { return Some(candidate); }
        if r == Failed { return None; }
        if !wasFirst {
          DrawnNext(names, start, before, bound);
        }
      }
    }

    /** unique_id_atomic: the basename, then the collision names. The name is free in info/, and in
      * files/ too unless the lstat that looked there, the last call, failed. */
    method UniqueId(sequence: Sequence, base: Name, ts: Text, process: u32, ghost bound: set<Name>)
      returns (id: Option<Name>)
      requires Valid() && Within(bound) && ours == map[]
      requires sequence.Start() + |bound| + 1 < SEQUENCE_END
      modifies this, sequence
      ensures Valid() && Went()
      ensures id.Some? ==> IsProper(id.value, base, ts, process)
      ensures ours == map[] && taken == old(taken)
      ensures oursInfo.Keys <= if id.Some? then bound + {id.value} else bound
      ensures id.Some? ==> id.value in oursInfo && (!HasFile(id.value) || env(clock - 1).fails.Some?)
      ensures id.Some? && !UndoFails(old(clock), clock) ==>
                id.value !in old(oursInfo) && oursInfo == old(oursInfo)[id.value := []]
      ensures id.None? && !UndoFails(old(clock), clock) ==> oursInfo == old(oursInfo)
      ensures id.None? ==> !Calm(old(clock), clock)
      ensures env(old(clock)).fails.Some? ==> id.None?
      ensures old(IsFree(Short(base))) && Calm(old(clock), old(clock) + 2) ==>
                id == Some(Short(base)) && clock == old(clock) + 2
      ensures sequence.Start() <= old(sequence.Start()) + |bound| + 1
    {
      hide Leads, IsProper, StoreValid, Kept, Unseized;
      ghost var v := Now();
      var short := Short(base);
      ShortIsProper(base, ts, process);
      var r := TryClaim(short, bound);
      if r == Claimed { return Some(short); }
      if r == Failed { return None; }
      ghost var u := Now();
      var names := new CollisionNames(short, ts, process);
      id := NumberedId(sequence, names, base, bound);
      LeadsOn(v, u, Now());
    }

    // -------------------------------------------------------------- copying across devices

    /** The source path names a regular file with this identity. */
    static predicate CanCopy(source: Option<Stat>, wanted: Stat) {
      source.Some? && SameInode(source.value, wanted) && source.value.kind.Regular?
    }

    /** Open the source without following links and check it is the wanted regular file. */
    method OpenVerified(wanted: Stat) returns (r: Result<Stat, int>)
      requires Valid()
      modifies this
      ensures Valid() && Went()
      ensures FilesKept() && (old(ours) == map[] ==> ours == map[]) && oursInfo == old(oursInfo) && taken == old(taken)
      ensures r.Ok? ==> SameInode(r.value, wanted) && r.value.kind.Regular?
      ensures CanCopy(old(source), wanted) && Calm(old(clock), clock) ==> r == Ok(old(source).value)
    {
      hide Leads;
      ghost var v := Now();
      var t := Tick();                                     // open
      assert Calm(old(clock), clock) ==> IsCalm(old(clock));
      if t.fails.Some? { return Err(t.fails.value); }
      if source.None? { return Err(ENOENT); }
      if source.value.kind.Symlink? { return Err(ELOOP); }
      ghost var u := Now();
      var handle := source.value;
      t := Tick();                                         // fstat
      LeadsOn(v, u, Now());
      assert Calm(v.clock, clock) ==> IsCalm(v.clock) && IsCalm(u.clock);
      handle := Rewritten(handle, t);
      if t.fails.Some? { return Err(t.fails.value); }
      if !handle.kind.Regular? || !SameInode(handle, wanted) { return Err(EBUSY); }
      return Ok(handle);
    }

    /** copy_verified_contents: the source must be the same version before and after; `handle`
      * is what it is by now. The copy is written through its descriptor. */
    method CopyContents(name: Name, m: Stat, handle: Stat) returns (error: Option<int>)
      requires Valid() && ours.Keys == {name} && handle.version >= m.version
      modifies this
      ensures Valid() && Went()
      ensures oursInfo == old(oursInfo) && taken == old(taken)
      ensures ours.Keys == {name} && old(lost) <= lost && (Unseized(old(clock), clock) ==> lost == old(lost))
      ensures name !in lost ==> IdOf(ours[name]) == IdOf(old(ours)[name])
      ensures error.None? ==> Holds(name, m)
      ensures handle == m && Calm(old(clock), clock) ==> error.None?
    {
      hide Leads, UndoFails, SourceStill, Submap, Quiet, SaysExists, SameInode, Seized;
      ghost var v := Now();
      var t := Tick();                                     // read and write
      assert Calm(v.clock, clock) ==> IsCalm(v.clock);
      var now := Rewritten(handle, t);
      var bytes := if now == m && t.fails.None? then contentOf(m) else t.garbage;
      if name !in lost {
        ours := ours[name := ours[name].(content := bytes)];
      }
      if t.fails.Some? { return t.fails; }
      ghost var u := Now();
      t := Tick();                                         // fstat again
      LeadsOn(v, u, Now());
      assert Calm(v.clock, clock) ==> IsCalm(v.clock) && IsCalm(u.clock);
      TurnsWithin(v.clock, u.clock, clock);
      now := Rewritten(now, t);
      if t.fails.Some? { return t.fails; }
      if now != m { return Some(EBUSY); }
      return None;
    }

    /** copy_regular_verified: an exclusive copy of exactly one version of the wanted inode. Only a
      * failing stat of the copy leaves one whose identity is not known. */
    method CopyRegular(name: Name, wanted: Stat) returns (r: Result<Stat, int>, created: Option<(nat, nat)>)
      requires Valid() && ours == map[]
      modifies this
      ensures Valid() && Went()
      ensures oursInfo == old(oursInfo) && taken == old(taken)
      ensures (ours == map[] || ours.Keys == {name}) && (Unseized(old(clock), clock) ==> lost == {})
      ensures created.Some? ==> ours.Keys == {name} && (name !in lost ==> IdOf(ours[name]) == created.value)
      ensures created.None? ==> ours == map[] || UndoFails(old(clock), clock)
      ensures r.Ok? ==>
                && created.Some? && Holds(name, r.value)
                && SameInode(r.value, wanted) && r.value.kind.Regular?
      ensures CanCopy(old(source), wanted) && !old(HasFile(name)) && Calm(old(clock), clock) ==>
                r == Ok(old(source).value)
    {
      hide Leads, Calm, UndoFails, Kept, Unseized;
      ghost var v := Now();
      created := None;
      r := OpenVerified(wanted);
      KeptNothing(old(Mine()), Mine(), old(clock), clock);
      if r.Err? { return; }
      ghost var u := Now();
      if Calm(v.clock, clock) { CalmKeeps(v, u); }
      var m := r.value;
      var error, t := CreateFile(name, []);
      LeadsOn(v, u, Now());
      TurnsWithin(v.clock, u.clock, clock);
      if Calm(u.clock, clock) { CalmKeeps(u, Now()); }
      if error.Some? { return Err(error.value), None; }
      u := Now();
      r, created := FillCopy(name, m, Rewritten(m, t));
      LeadsOn(v, u, Now());
      TurnsWithin(v.clock, u.clock, clock);
    }

    /** The rest of copy_regular_verified, from the stat of the copy on. */
    method FillCopy(name: Name, m: Stat, current: Stat) returns (r: Result<Stat, int>, created: Option<(nat, nat)>)
      requires Valid() && ours.Keys == {name} && lost == {} && current.version >= m.version
      modifies this
      ensures Valid() && Went()
      ensures oursInfo == old(oursInfo) && taken == old(taken)
      ensures ours.Keys == {name} && (Unseized(old(clock), clock) ==> lost == {})
      ensures created.Some? && name !in lost ==> IdOf(ours[name]) == created.value
      ensures created.None? ==> UndoFails(old(clock), clock)
      ensures r.Ok? ==> created.Some? && r.value == m && Holds(name, m)
      ensures current == m && Calm(old(clock), clock) ==> r.Ok?
    {
      hide Leads, Calm, UndoFails, Unseized;
      ghost var v := Now();
      var output := IdOf(ours[name]);
      var t := Tick();                                     // fstat of the copy
      TurnsWithin(v.clock, v.clock, clock);
      var handle := Rewritten(current, t);
      if t.undoFails.Some? { return Err(t.undoFails.value), None; }
      created := Some(output);
      ghost var u := Now();
      var error := CopyContents(name, m, handle);
      LeadsOn(v, u, Now());
      TurnsWithin(v.clock, u.clock, clock);
      r := if error.Some? then Err(error.value) else Ok(m);
    }

    /** remove_owned_copy, whatever stands under the name by now: it is removed exactly when the
      * lstat sees the identity we created. So a file that others put there is only removed if it
      * has that identity, or was put there in the turn of the removal itself. */
    method RemoveOwnedCopy(name: Name, created: Option<(nat, nat)>)
      requires Valid()
      requires created.Some? ==> name in ours
      modifies this
      ensures Valid() && (if created.Some? then Went() else unchanged(this))
      ensures oursInfo == old(oursInfo) && taken == old(taken)
      ensures old(ours).Keys - {name} <= ours.Keys <= old(ours).Keys
      ensures created.Some? ==>
                var seen := Standing(old(ours)[name], env(old(clock)).seizes, name);
                if env(old(clock)).undoFails.None? && IdOf(seen) == created.value
                then clock == old(clock) + 2 && (name in ours <==> env(old(clock) + 1).undoFails.Some?)
                else clock == old(clock) + 1 && name in ours
      ensures created.Some? && name !in ours ==>
                var seen := Standing(old(ours)[name], env(old(clock)).seizes, name);
                var removed := Standing(seen, env(clock - 1).seizes, name);
                IdOf(removed) == created.value || removed != seen
      ensures created.Some? && (name in old(lost) || IdOf(old(ours)[name]) == created.value) ==>
                name !in ours || name in lost || UndoFails(old(clock), clock)
    {
      hide Leads, Kept;
      if created.Some? {
        ghost var v := Now();
        var found := LstatOwn(name);
        assert name in ours && ours[name] == Standing(old(ours)[name], env(old(clock)).seizes, name);
        if found == created {
          ghost var u, f := Now(), Mine();
          RemoveFile(name);
          LeadsOn(v, u, Now());
          if env(u.clock).undoFails.Some? { KeptSays(f, Mine(), u.clock, clock); }
          assert env(clock - 1).undoFails.Some? ==> UndoFails(old(clock), clock);
        }
      }
    }

    /** Remove our copy and its sidecar. */
    method Undo(name: Name, created: Option<(nat, nat)>)
      requires Valid() && name in oursInfo && (ours == map[] || ours.Keys == {name})
      requires created.Some? ==> name in ours && (name in lost || IdOf(ours[name]) == created.value)
      modifies this
      ensures Valid() && Went() && taken == old(taken)
      ensures UndoFails(old(clock), clock)
              || (oursInfo == Without(old(oursInfo), name) && (created.Some? || old(ours) == map[] ==> NoFileLeft()))
    {
      hide Leads, Calm, UndoFails, Kept, StoreValid, Unseized;
      ghost var v := Now();
      RemoveOwnedCopy(name, created);
      ghost var u, f := Now(), Mine();
      LeadsNowhere(v);
      RemoveInfo(name);
      LeadsOn(v, u, Now());
      TurnsWithin(v.clock, u.clock, clock);
      KeptSays(f, Mine(), u.clock, clock);
    }

    /** retire_copied_source: unlink the source only while it still is the copied version. The copy
      * holds that version, or the version is gone. */
    method RetireCopiedSource(name: Name, copied: Stat, created: Option<(nat, nat)>) returns (r: Attempt)
      requires Valid() && ours.Keys == {name} && name in oursInfo && taken.None?
      requires created.Some? ==> name in lost || IdOf(ours[name]) == created.value
      requires Holds(name, copied) || copied in past
      modifies this
      ensures Valid() && Went()
      ensures r.Trashed? || r.Error?
      ensures r.Trashed? ==>
                && ours.Keys == {name} && oursInfo == old(oursInfo) && taken.Some? && source.None?
                && Holds(name, copied) && (Unseized(old(clock), clock) ==> lost == old(lost))
                && (taken == Some(copied) || env(clock - 1).source.Some?)
      ensures old(source) == Some(copied) && !copied.kind.Directory? && Calm(old(clock), clock) ==> r.Trashed?
      ensures r.Error? ==>
                && taken.None?
                && (created.Some? && !UndoFails(old(clock), clock) ==>
                      NoFileLeft() && oursInfo == Without(old(oursInfo), name))
      // Another version is refused, and so is what the unlink refuses, with its own error.
      ensures var seen := old(SourceAfter(source, past, env(clock)));
              if env(old(clock)).fails.Some? || seen != Some(copied) then r == Error(EBUSY)
              else env(old(clock) + 1).fails.Some? ==> r == Error(env(old(clock) + 1).fails.value)
    {
      hide Leads, Calm, UndoFails, Kept, Unseized, StoreValid, Quiet, SourceStill, Submap, IsQuiet, SaysExists;
      hide SourceAfter, Without, IsCalm;
      ghost var v, f := Now(), Mine();
      var current := LstatSource();
      TurnsWithin(v.clock, v.clock, clock);
      var error: Option<int> := Some(EBUSY);
      ghost var u, g := Now(), Mine();
      KeptSays(f, g, v.clock, clock);
      if Calm(v.clock, clock) { CalmKeeps(v, u); }
      if current == Some(copied) {
        error := UnlinkSource();
        LeadsOn(v, u, Now());
        KeptOn(f, g, Mine(), v.clock, u.clock, clock);
        KeptSays(f, Mine(), v.clock, clock);
        if Calm(u.clock, clock) { CalmKeeps(u, Now()); }
        TurnsWithin(v.clock, u.clock, clock);
        if error.None? {
          return Trashed;
        }
        u := Now();
      }
      Undo(name, created);
      LeadsOn(v, u, Now());
      TurnsWithin(v.clock, u.clock, clock);
      return Error(error.value);
    }

    // -------------------------------------------------------------- try_trash

    /** What was taken is what the hook saw, unless the source was touched in the turn of the call
      * that took it, or the check before the move, the call before that, failed. */
    ghost predicate TookWhatWasMeant(meta: Stat)
      reads this
    {
      && clock >= 2 && taken.Some?
      && (|| (taken.value.dev == meta.dev && taken.value.ino == meta.ino)
          || env(clock - 1).source.Some? || env(clock - 2).fails.Some?)
    }

    /** The source is there, the name free, the check of the source in turn `c` passed, and nobody else
      * moves before the answer to the rename after it is known. */
    ghost predicate MayMove(c: nat, source: Option<Stat>, hasFile: bool, meta: Stat) {
      && Quiet(c, c + 1) && RenamesAlone(c + 1, source, hasFile)
      && (SameInode(source.value, meta) || env(c).fails.Some?)
    }

    /** A rename in turn `c` of a source that is there to a name that is free, before anybody else moves. */
    ghost predicate RenamesAlone(c: nat, source: Option<Stat>, hasFile: bool) {
      source.Some? && !hasFile && Quiet(c, c + RenameTurns(env(c).fails))
    }

    lemma RenamesAloneMeans(c: nat, source: Option<Stat>, hasFile: bool)
      requires RenamesAlone(c, source, hasFile)
      ensures source.Some? && !hasFile && Quiet(c, c + 1)
      ensures env(c).fails.Some? && env(c).fails.value != EEXIST ==> Quiet(c + 1, c + 2)
    {
      TurnsWithin(c, c + 1, c + RenameTurns(env(c).fails));
    }

    lemma MayMoveMeans(c: nat, source: Option<Stat>, hasFile: bool, meta: Stat)
      requires MayMove(c, source, hasFile, meta)
      ensures Quiet(c, c + 1) && RenamesAlone(c + 1, source, hasFile) && source.Some? && !hasFile
      ensures SameInode(source.value, meta) || env(c).fails.Some?
    {}

    /** Somebody else's inode stands there. */
    static predicate IsOther(seen: Option<Stat>, meta: Stat) {
      seen.Some? && !SameInode(seen.value, meta)
    }

    /** And the check in turn `c` sees it. */
    predicate IsReplaced(c: nat, source: Option<Stat>, past: set<Stat>, meta: Stat) {
      env(c).fails.None? && IsOther(SourceAfter(source, past, env(c)), meta)
    }

    /** The basename is free, the calls before the check do not fail, and the first rename decides. */
    ghost predicate FirstTry(base: Name, meta: Stat)
      reads this
    {
      IsFree(Short(base)) && Calm(clock, clock + 3) && MayMove(clock + 3, source, false, meta)
    }

    lemma CalmMayMove(c: nat, source: Option<Stat>, meta: Stat)
      requires source.Some? && SameInode(source.value, meta) && Calm(c, c + 2)
      ensures MayMove(c, source, false, meta) && env(c + 1).fails.None?
    {
      TurnsWithin(c, c + 1, c + 2);
    }

    /** Nothing can be done here: the first sidecar can not be created, or under the basename, which is
      * free, not be written, or the source has been replaced when it is looked at before the rename. */
    ghost predicate GivesUp(base: Name, meta: Stat)
      reads this
    {
      || env(clock).fails.Some?
      || (IsFree(Short(base)) && Calm(clock, clock + 2) && env(clock + 2).fails.Some?)
      || (IsFree(Short(base)) && Calm(clock, clock + 3) && IsReplaced(clock + 3, source, past, meta))
    }

    /** A call in these turns is answered with this error from outside, or the source was gone. */
    ghost predicate Answers(errno: int, from: nat, end: nat) {
      errno == ENOENT || exists k: nat :: from <= k < end && env(k).fails == Some(errno)
    }

    /** And it calls for a copy. */
    ghost predicate CopyCalledFor(from: nat, end: nat) {
      exists k: nat :: from <= k < end && env(k).fails.Some? && CallsForCopy(env(k).fails.value)
    }

    lemma AnswerCallsForCopy(errno: int, from: nat, later: nat, end: nat)
      requires from <= later <= end && Answers(errno, from, later) && CallsForCopy(errno)
      ensures CopyCalledFor(from, end)
    {}

    lemma AnsweredWithin(errno: int, from: nat, later: nat, end: nat)
      requires from <= later <= end && Answers(errno, later, end)
      ensures Answers(errno, from, end)
    {}

    /** One round of the claim loop: claim a name, write the sidecar, recheck the source, move. */
    method ClaimAndRename(sequence: Sequence, meta: Stat, base: Name, ts: Text, process: u32, sidecar: Content,
                          ghost bound: set<Name>)
      returns (round: Round, dest: Name)
      requires Valid() && Within(bound) && taken.None? && ours == map[]
      requires sequence.Start() + |bound| + 1 < SEQUENCE_END
      modifies this, sequence
      ensures Valid() && Went()
      ensures sequence.Start() <= old(sequence.Start()) + |bound| + 1
      ensures round.GaveUp? || (Within(bound + {dest}) && IsProper(dest, base, ts, process))
      ensures round.Moved? || round.Refused? ==> dest in oursInfo
      ensures !round.Moved? ==> taken.None? && ours == map[]
      ensures (round.GaveUp? || round.Occupied?) && !UndoFails(old(clock), clock) ==> oursInfo == old(oursInfo)
      ensures (round.Moved? || round.Refused?) ==> oursInfo[dest] == sidecar
      ensures (round.Moved? || round.Refused?) && !UndoFails(old(clock), clock) ==>
                dest !in old(oursInfo) && oursInfo == old(oursInfo)[dest := sidecar]
      ensures round.Moved? ==>
                && taken.Some? && source.None? && TookWhatWasMeant(meta)
                && ours == map[dest := Entry(contentOf(taken.value), taken.value.dev, taken.value.ino)] && lost == {}
      ensures round.Occupied? ==> dest in others || SaysExists(old(clock), clock)
      ensures round.Refused? ==> Answers(round.errno, old(clock), clock)
      ensures old(GivesUp(base, meta)) ==> round.GaveUp?
      ensures old(source).Some? && SameInode(old(source).value, meta) && Calm(old(clock), clock) ==> round.Moved?
      ensures old(FirstTry(base, meta)) ==> RenameDecides(round, old(Now()), Now(), old(clock) + 4, HasFile(dest))
    {
      hide Leads, Calm, UndoFails, Quiet, TookWhatWasMeant, Short, IsProper, StoreValid, Kept, Unseized, SourceStill;
      hide Submap, SameInode, SaysExists, IsFree, IsReplaced, MayMove, RenameDecides, HasFile;
      hide IsQuiet, RenamesAlone, IsOther, CallsForCopy;
      ghost var v := Now();
      var claimed := Prepare(sequence, base, ts, process, sidecar, bound);
      if claimed.None? { return GaveUp, []; }
      dest := claimed.value;
      ghost var u := Now();
      round := MoveIn(dest, meta);
      LeadsOn(v, u, Now());
      TurnsWithin(v.clock, u.clock, clock);
      TurnsWithin(u.clock, u.clock + 2, clock);
      if Calm(v.clock, clock) {
        CalmKeeps(v, u);
        if v.source.Some? && SameInode(v.source.value, meta) { CalmMayMove(u.clock, u.source, meta); }
      }
      if old(FirstTry(base, meta)) { RenameDecidesFrom(round, v, u, Now(), v.clock + 4, HasFile(dest)); }
    }

    /** Claim a name and write the sidecar under it. */
    method Prepare(sequence: Sequence, base: Name, ts: Text, process: u32, sidecar: Content, ghost bound: set<Name>)
      returns (dest: Option<Name>)
      requires Valid() && Within(bound) && taken.None? && ours == map[]
      requires sequence.Start() + |bound| + 1 < SEQUENCE_END
      modifies this, sequence
      ensures Valid() && Went() && taken.None? && ours == map[]
      ensures sequence.Start() <= old(sequence.Start()) + |bound| + 1
      ensures dest.Some? ==> Within(bound + {dest.value}) && IsProper(dest.value, base, ts, process)
      ensures dest.None? ==>
                !Calm(old(clock), clock) && (oursInfo == old(oursInfo) || UndoFails(old(clock), clock))
      ensures dest.Some? ==>
                && dest.value in oursInfo && oursInfo[dest.value] == sidecar
                && (UndoFails(old(clock), clock)
                    || (dest.value !in old(oursInfo) && oursInfo == old(oursInfo)[dest.value := sidecar]))
                && (Calm(old(clock), clock) ==> !HasFile(dest.value))
      ensures env(old(clock)).fails.Some? ==> dest.None?
      ensures old(IsFree(Short(base))) && Calm(old(clock), old(clock) + 2) && env(old(clock) + 2).fails.Some? ==>
                dest.None?
      ensures old(IsFree(Short(base))) && Calm(old(clock), old(clock) + 3) ==>
                && dest.Some? && clock == old(clock) + 3
                && source == old(source) && past == old(past) && !HasFile(dest.value)
    {
      hide Leads, Short, Submap, SourceStill, IsProper, StoreValid, Kept, Unseized, Calm, UndoFails, IsFree, Quiet;
      hide SaysExists, Seized;
      ghost var v := Now();
      TurnsWithin(v.clock, v.clock + 2, v.clock + 3);
      dest := UniqueId(sequence, base, ts, process, bound);
      if dest.None? { return; }
      ghost var u := Now();
      TurnsWithin(v.clock, u.clock - 1, u.clock);
      var written := WriteClaimed(dest.value, sidecar);
      LeadsOn(v, u, Now());
      TurnsWithin(v.clock, u.clock, clock);
      if Calm(u.clock, clock) { CalmKeeps(u, Now()); }
      if Calm(v.clock, clock) { CalmKeeps(v, Now()); }
      if !written {
        if dest.value !in old(oursInfo) {
          assert Without(old(oursInfo)[dest.value := []], dest.value) == old(oursInfo);
        }
        return None;
      }
    }

    /** The sidecar is written under the claimed name, or the claim is taken back. */
    method WriteClaimed(dest: Name, sidecar: Content) returns (ok: bool)
      requires Valid() && ours == map[] && dest in oursInfo
      modifies this
      ensures Valid() && Went() && ours == map[] && taken == old(taken)
      ensures ok == env(old(clock)).fails.None?
      ensures ok ==> clock == old(clock) + 1 && oursInfo == old(oursInfo)[dest := sidecar]
      ensures !ok ==>
                && !Calm(old(clock), clock)
                && (UndoFails(old(clock), clock) || oursInfo == Without(old(oursInfo), dest))
    {
      hide Leads, StoreValid, Kept, Unseized, Calm, UndoFails;
      ghost var v := Now();
      ok := WriteInfo(dest, sidecar);
      if !ok {
        ghost var u := Now();
        RemoveInfo(dest);
        LeadsOn(v, u, Now());
        TurnsWithin(v.clock, v.clock, clock);
        TurnsWithin(v.clock, u.clock, clock);
      }
    }

    /** How a round ends whose rename had this error. */
    static function RoundFor(error: Option<int>): Round {
      if error.None? then Moved else if error.value == EEXIST then Occupied else Refused(error.value)
    }

    /** A round from `a` to `b` ends as the answer to its rename, in turn `k`, says. */
    ghost predicate RenameDecides(round: Round, a: View, b: View, k: nat, hasFile: bool) {
      && round == RoundFor(env(k).fails)
      && (round.Moved? ==> b.taken == a.source)
      && (round.Refused? ==> b.clock == k + 2 && b.source == a.source && b.past == a.past && !hasFile)
    }

    lemma RenameDecidesFrom(round: Round, a: View, b: View, c: View, k: nat, hasFile: bool)
      requires a.source == b.source && a.past == b.past && RenameDecides(round, b, c, k, hasFile)
      ensures RenameDecides(round, a, c, k, hasFile)
    {}

    lemma RenameSays(round: Round, a: View, b: View, k: nat, hasFile: bool)
      ensures RenameDecides(round, a, b, k, hasFile) ==> round == RoundFor(env(k).fails)
    {}

    /** How many turns it takes to know the answer to a rename: one that is refused, but not because
      * the name is taken, is followed by a look at the name. */
    static function RenameTurns(error: Option<int>): nat {
      if error.None? || error.value == EEXIST then 1 else 2
    }

    /** Check the source once more and move it to the claimed name. */
    method MoveIn(dest: Name, meta: Stat) returns (round: Round)
      requires Valid() && taken.None? && ours == map[] && dest in oursInfo
      modifies this
      ensures Valid() && Went() && clock >= old(clock) + 2
      ensures !round.Moved? ==> taken.None? && ours == map[]
      ensures round.GaveUp? || round.Occupied? ==>
                oursInfo == Without(old(oursInfo), dest) || (UndoFails(old(clock), clock) && oursInfo == old(oursInfo))
      ensures round.Moved? || round.Refused? ==> oursInfo == old(oursInfo)
      ensures round.Moved? ==>
                && taken.Some? && source.None? && TookWhatWasMeant(meta)
                && ours == map[dest := Entry(contentOf(taken.value), taken.value.dev, taken.value.ino)] && lost == {}
      ensures round.Occupied? ==> dest in others || SaysExists(old(clock), clock)
      ensures round.Refused? ==> env(old(clock) + 1).fails == Some(round.errno) || round.errno == ENOENT
      ensures IsReplaced(old(clock), old(source), old(past), meta) ==> round.GaveUp?
      // While nobody else moves, the rename alone decides, once the check before it is passed: by
      // what the hook saw, or by a lstat that fails.
      ensures MayMove(old(clock), old(source), old(HasFile(dest)), meta) ==>
                && RenameDecides(round, old(Now()), Now(), old(clock) + 1, HasFile(dest))
                && (env(old(clock) + 1).fails.None? ==> round.Moved?)
    {
      hide Leads, Calm, UndoFails, Quiet, StoreValid, Kept, Unseized, SourceAfter, MayMove, RenamesAlone, RenameDecides;
      ghost var v := Now();
      ghost var moves := MayMove(clock, source, HasFile(dest), meta);
      if moves { MayMoveMeans(clock, source, HasFile(dest), meta); }
      var now := LstatSource();
      ghost var u := Now();
      if moves { QuietKeeps(v, u); }
      if now.Some? && !SameInode(now.value, meta) {
        RemoveInfo(dest);
        round := GaveUp;                                   // replaced: the real unlink handles it
      } else {
        round := RenameIn(dest);
        if moves {
          RenameSays(round, u, Now(), u.clock, HasFile(dest));
          RenameDecidesFrom(round, v, u, Now(), u.clock, HasFile(dest));
        }
        assert SaysExists(u.clock, clock) ==> SaysExists(v.clock, clock);
      }
      LeadsOn(v, u, Now());
      TurnsWithin(v.clock, u.clock, clock);
    }

    /** The rename, and when it is refused a look whether somebody holds the name. */
    method RenameIn(dest: Name) returns (round: Round)
      requires Valid() && taken.None? && ours == map[] && dest in oursInfo
      modifies this
      ensures Valid() && Went() && !round.GaveUp?
      ensures !round.Moved? ==> taken.None? && ours == map[]
      ensures round.Occupied? ==>
                oursInfo == Without(old(oursInfo), dest) || (UndoFails(old(clock), clock) && oursInfo == old(oursInfo))
      ensures round.Moved? || round.Refused? ==> oursInfo == old(oursInfo)
      ensures round.Moved? ==>
                && taken.Some? && source.None? && clock == old(clock) + 1
                && (taken == old(source) || env(old(clock)).source.Some?)
                && ours == map[dest := Entry(contentOf(taken.value), taken.value.dev, taken.value.ino)] && lost == {}
      ensures round.Occupied? ==> dest in others || SaysExists(old(clock), clock)
      ensures round.Refused? ==> env(old(clock)).fails == Some(round.errno) || round.errno == ENOENT
      ensures RenamesAlone(old(clock), old(source), old(HasFile(dest))) ==>
                RenameDecides(round, old(Now()), Now(), old(clock), HasFile(dest))
    {
      hide Leads, Calm, UndoFails, Quiet, StoreValid, Kept, Unseized, Without;
      hide Valid, IsCalm, RenamesAlone, RenameTurns, SourceStill, Submap;
      ghost var v, alone := Now(), RenamesAlone(clock, source, HasFile(dest));
      if alone { RenamesAloneMeans(clock, source, HasFile(dest)); }
      var error := RenameNoReplace(dest);
      ghost var u := Now();
      if alone { QuietKeeps(v, u); }
      if error.None? {
        return Moved;
      }
      round := AfterRefusal(dest, error.value);
      LeadsOn(v, u, Now());
      TurnsWithin(v.clock, u.clock, clock);
      if alone && round.Refused? { QuietKeeps(u, Now()); }
      KeptOthers(u, Now());
      assert env(u.clock - 1).fails == Some(EEXIST) ==> SaysExists(v.clock, clock);
    }

    /** A rename was refused: was it because somebody holds the name? */
    method AfterRefusal(dest: Name, error: int) returns (round: Round)
      requires Valid() && ours == map[] && dest in oursInfo
      modifies this
      ensures Valid() && Went()
      ensures round.Occupied? || round == Refused(error)
      ensures ours == map[] && taken == old(taken)
      ensures round.Occupied? ==>
                && (error == EEXIST || dest in others)
                && (|| oursInfo == Without(old(oursInfo), dest)
                    || (UndoFails(old(clock), clock) && oursInfo == old(oursInfo)))
      ensures round.Refused? ==> error != EEXIST && oursInfo == old(oursInfo) && clock == old(clock) + 1
      ensures error != EEXIST && !old(HasFile(dest)) && Quiet(old(clock), old(clock) + 1) ==> round.Refused?
    {
      hide Leads, StoreValid, Kept, Unseized;
      ghost var v := Now();
      ghost var u := v;
      LeadsNowhere(v);
      var occupied := error == EEXIST;
      if !occupied {
        var found := LstatFile(dest);
        occupied := found.Some?;
        u := Now();
        if Quiet(v.clock, clock) { QuietKeeps(v, u); }
      }
      if occupied {
        RemoveInfo(dest);
        LeadsOn(v, u, Now());
        KeptOthers(u, Now());
        TurnsWithin(v.clock, u.clock, clock);
        return Occupied;
      }
      return Refused(error);
    }

    /** In some of these turns a call is answered EEXIST from outside. */
    ghost predicate SaysExists(from: nat, end: nat) {
      exists k: nat :: from <= k < end && env(k).fails == Some(EEXIST)
    }

    /** The claim loop: another round only while somebody else holds files/`dest`, and never more
      * than eight; `held` are the names that were lost that way. */
    method ClaimLoop(sequence: Sequence, meta: Stat, base: Name, ts: Text, process: u32, sidecar: Content)
      returns (round: Round, dest: Name, ghost held: seq<Name>)
      requires Valid() && ours == map[] && oursInfo == map[] && taken.None?
      requires sequence.Start() + Budget(MAX_CLAIM_ATTEMPTS, |universe| + 10) < SEQUENCE_END
      modifies this, sequence
      ensures Valid() && Went()
      ensures |held| <= MAX_CLAIM_ATTEMPTS && (round.Occupied? <==> |held| == MAX_CLAIM_ATTEMPTS)
      ensures round.GaveUp? || IsProper(dest, base, ts, process)
      ensures forall i :: 0 <= i < |held| ==> held[i] in others || SaysExists(old(clock), clock)
      ensures !round.Moved? ==> taken.None? && ours == map[]
      ensures round.Refused? ==> Answers(round.errno, old(clock), clock)
      ensures old(GivesUp(base, meta)) ==> round.GaveUp?
      ensures (round.GaveUp? || round.Occupied?) && !UndoFails(old(clock), clock) ==> oursInfo == map[]
      ensures round.Moved? || round.Refused? ==>
                && dest in oursInfo && oursInfo[dest] == sidecar
                && (!UndoFails(old(clock), clock) ==> oursInfo == map[dest := sidecar])
      ensures round.Moved? ==>
                && taken.Some? && source.None? && TookWhatWasMeant(meta)
                && ours == map[dest := Entry(contentOf(taken.value), taken.value.dev, taken.value.ino)] && lost == {}
      ensures old(source).Some? && SameInode(old(source).value, meta) && Calm(old(clock), clock) ==> round.Moved?
      ensures old(FirstTry(base, meta)) && env(old(clock) + 4).fails != Some(EEXIST) ==>
                RenameDecides(round, old(Now()), Now(), old(clock) + 4, HasFile(dest))
    {
      hide Leads, SourceStill, Submap, IsProper, StoreValid, Kept, Unseized, TookWhatWasMeant, Short;
      hide FirstTry, Calm, Quiet, UndoFails, IsFree, GivesUp, Answers, RenameDecides;
      ghost var v, bound := Now(), universe;
      LeadsNowhere(v);
      var attempts := 0;
      held := [];
      while true
        invariant Valid() && (if attempts == 0 then Now() == v else v.clock < clock) && Leads(v, Now())
        invariant attempts == 0 ==> FirstTry(base, meta) == old(FirstTry(base, meta))
        invariant if attempts == 0 then GivesUp(base, meta) == old(GivesUp(base, meta)) else !old(GivesUp(base, meta))
        invariant taken.None? && ours == map[] && old(taken) == taken
        invariant 0 <= attempts < MAX_CLAIM_ATTEMPTS && |held| == attempts
        invariant forall i :: 0 <= i < |held| ==> held[i] in others || SaysExists(old(clock), clock)
        invariant attempts > 0 && old(source).Some? && SameInode(old(source).value, meta) ==> !Calm(old(clock), clock)
        invariant attempts > 0 ==> !old(FirstTry(base, meta)) || env(old(clock) + 4).fails == Some(EEXIST)
        invariant Within(bound) && |bound| <= |universe| + attempts
        invariant !UndoFails(old(clock), clock) ==> oursInfo == map[]
        invariant sequence.Start() + Budget(MAX_CLAIM_ATTEMPTS - attempts, |universe| + 10) < SEQUENCE_END
        decreases MAX_CLAIM_ATTEMPTS - attempts
      {
        ghost var u := Now();
        round, dest := ClaimAndRename(sequence, meta, base, ts, process, sidecar, bound);
        LeadsOn(v, u, Now());
        TurnsWithin(v.clock, u.clock, clock);
        RenameSays(round, v, Now(), v.clock + 4, HasFile(dest));
        if round.Refused? { AnsweredWithin(round.errno, v.clock, u.clock, clock); }
        KeptOthers(u, Now());
        if !round.Occupied? {
          return;
        }
        held := held + [dest];
        bound := bound + {dest};
        attempts := attempts + 1;
        if attempts == MAX_CLAIM_ATTEMPTS {
          return;
        }
      }
    }

    static predicate CallsForCopy(errno: int) {
      errno == EXDEV || errno == EINVAL || errno == ENOSYS || errno == EOPNOTSUPP
    }

    /** By their numbers: across devices, or not to be done by a rename here. */
    static lemma ErrorsThatCallForCopy(errno: int)
      ensures CallsForCopy(errno) <==> errno == 18 || errno == 22 || errno == 38 || errno == 95
    {}

    /** The verdict before the store is touched, if there is one. */
    static function Early(tooLarge: bool, store: Store, prepared: bool): Option<Attempt> {
      if tooLarge then Some(NotTrashed)
      else
        match store
        case Available => if prepared then None else Some(NotTrashed)
        case Unavailable => Some(NotTrashed)
        case Unsafe => Some(UnsafeStore)
        case LockFailed(errno) => Some(Error(errno))
    }

    /** The source is gone, what was there is stored under one fresh and proper name with its sidecar,
      * and it is what the hook saw. Only a change of the source in the very turn of the call that
      * removes it can be overlooked, and before a rename a failed check. */
    twostate predicate IsStored(id: Name, meta: Stat, base: Name, ts: Text, process: u32, sidecar: Content)
      reads this
    {
      && taken.Some? && source.None?
      && (HoldsWhatWasMeant(id, meta) || (Holds(id, taken.value) && TookWhatWasMeant(meta)))
      && ours.Keys == {id} && (Unseized(old(clock), clock) ==> lost == {})
      && id !in others && IsProper(id, base, ts, process)
      && id in oursInfo && oursInfo[id] == sidecar
      && (oursInfo.Keys == {id} || UndoFails(old(clock), clock))
    }

    /** With nothing in the way, the file the hook saw is trashed. And the first rename decides: it
      * moves the file, or a refusal across devices has it looked at again and copied, and any other
      * refusal, but that the name is taken, leaves it to the real unlink. */
    ghost predicate Decided(r: Attempt, meta: Stat, firstTry: bool, a: View, b: View) {
      && (Calm(a.clock, b.clock) && a.source.Some? && SameInode(a.source.value, meta) ==> r.Trashed?)
      && (firstTry && env(a.clock + 4).fails != Some(EEXIST) ==>
            match env(a.clock + 4).fails
            case None => r.Trashed? && b.taken == a.source
            case Some(e) =>
              if !CallsForCopy(e) then r == NotTrashed
              else
                && RecheckDecides(r, meta, a.clock + 6, SourceAfter(a.source, a.past, env(a.clock + 6)), b)
                && (Calm(a.clock + 5, b.clock) && a.source.Some? && SameInode(a.source.value, meta) ==>
                      (r.Trashed? <==> a.source.value.kind.Regular? || a.source.value.kind.Symlink?)))
    }

    twostate predicate IsDecided(r: Attempt, base: Name, meta: Stat)
      reads this
    {
      Decided(r, meta, old(FirstTry(base, meta)), old(Now()), Now())
    }

    /** An attempt is decided whose last round ended like this: moved, */
    lemma MovedIsDecided(meta: Stat, firstTry: bool, a: View, b: View, hasFile: bool)
      requires firstTry && env(a.clock + 4).fails != Some(EEXIST) ==>
                 RenameDecides(Moved, a, b, a.clock + 4, hasFile)
      ensures Decided(Trashed, meta, firstTry, a, b)
    {
      hide Calm;
    }

    /** given up, */
    lemma GivenUpIsDecided(round: Round, meta: Stat, firstTry: bool, a: View, b: View, hasFile: bool)
      requires round.GaveUp? || round.Occupied?
      requires !(Calm(a.clock, b.clock) && a.source.Some? && SameInode(a.source.value, meta))
      requires firstTry && env(a.clock + 4).fails != Some(EEXIST) ==>
                 RenameDecides(round, a, b, a.clock + 4, hasFile)
      ensures Decided(NotTrashed, meta, firstTry, a, b)
    {
      hide Calm;
    }

    /** or refused at `u`, and then copied or left. */
    lemma RefusedIsDecided(r: Attempt, errno: int, meta: Stat, firstTry: bool, a: View, u: View, b: View, hasFile: bool)
      requires a.clock <= u.clock <= b.clock
      requires !(Calm(a.clock, u.clock) && a.source.Some? && SameInode(a.source.value, meta))
      requires firstTry && env(a.clock + 4).fails != Some(EEXIST) ==>
                 RenameDecides(Refused(errno), a, u, a.clock + 4, hasFile)
      requires if CallsForCopy(errno)
               then RecheckDecides(r, meta, u.clock, SourceAfter(u.source, u.past, env(u.clock)), b)
               else r == NotTrashed
      requires (CallsForCopy(errno) && Calm(u.clock, b.clock)
                && u.source.Some? && SameInode(u.source.value, meta) && !hasFile) ==>
                 (r.Trashed? <==> u.source.value.kind.Regular? || u.source.value.kind.Symlink?)
      ensures Decided(r, meta, firstTry, a, b)
    {
      hide Calm, RecheckDecides, SourceAfter, SameInode, CallsForCopy;
      TurnsWithin(a.clock, u.clock, b.clock);
      if u.clock >= a.clock + 5 { TurnsWithin(a.clock + 5, u.clock, b.clock); }
    }

    /** What the look at the source before a copy decides, in turn `k`, when `seen` stood there. A
      * file that is gone, or can not be copied, is left to the real unlink; one that was replaced is
      * refused, since the real unlink would delete what stands there instead, and so is a regular
      * file that another version replaces before the copy has failed. `b` is how it ends. */
    ghost predicate RecheckDecides(r: Attempt, meta: Stat, k: nat, seen: Option<Stat>, b: View) {
      if env(k).fails.Some? || seen.None? then r.NotTrashed?
      else if !SameInode(seen.value, meta) then r == Error(EBUSY)
      else
        match seen.value.kind
        case Symlink => true
        case Regular =>
          r.NotTrashed? ==> b.source.None? || b.source == seen || (b.clock > 0 && env(b.clock - 1).fails.Some?)
        case _ => r.NotTrashed?
    }

    /** While nobody touches the source path, it loses exactly what is trashed. */
    twostate predicate SourceKept(r: Attempt)
      reads this
    {
      SourceStill(old(clock), clock) ==> if r.Trashed? then taken == old(source) else source == old(source)
    }

    /** The whole attempt.  `meta` is what the hook saw; `tooLarge`, `store` and `prepared` are
      * what was found before the store is touched. */
    method TryTrash(sequence: Sequence, meta: Stat, tooLarge: bool, store: Store, prepared: bool,
                    base: Name, ts: Text, process: u32, sidecar: Content)
      returns (r: Attempt, ghost id: Name, ghost held: seq<Name>)
      requires Valid() && ours == map[] && oursInfo == map[] && taken.None?
      requires sequence.Start() + Budget(MAX_CLAIM_ATTEMPTS, |universe| + 10) < SEQUENCE_END
      modifies this, sequence
      ensures Valid() && old(clock) <= clock
      ensures Submap(old(others), others) && Submap(old(othersInfo), othersInfo)
      // What was found before the store is touched decides alone.
      ensures Early(tooLarge, store, prepared).Some? ==> r == Early(tooLarge, store, prepared).value && unchanged(this)
      ensures r.UnsafeStore? ==> Early(tooLarge, store, prepared) == Some(UnsafeStore)
      ensures Early(tooLarge, store, prepared).None? ==> IsDecided(r, base, meta)
      // The deletion is refused only after a rename was refused in a way that calls for a copy; with
      // nothing that could be done here, or eight names lost, it is left to the real unlink.
      ensures Early(tooLarge, store, prepared).None? && r.Error? ==> CopyCalledFor(old(clock), clock)
      ensures Early(tooLarge, store, prepared).None? && (old(GivesUp(base, meta)) || |held| == MAX_CLAIM_ATTEMPTS) ==>
                r == NotTrashed
      // Unless the file is stored we took nothing, and nothing of ours is left unless a call that
      // undoes one of our steps failed.
      ensures r.Trashed? ==> IsStored(id, meta, base, ts, process, sidecar)
      ensures !r.Trashed? ==> taken.None? && (Clean() || UndoFails(old(clock), clock))
      ensures SourceKept(r)
      ensures |held| <= MAX_CLAIM_ATTEMPTS
      ensures forall i :: 0 <= i < |held| ==> held[i] in others || SaysExists(old(clock), clock)
    {
      id, held := [], [];
      var early := Early(tooLarge, store, prepared);
      if early.Some? {
        r := early.value;
      } else {
        r, id, held := TryStore(sequence, meta, base, ts, process, sidecar);
      }
    }

    /** The attempt once the store is ready. */
    method TryStore(sequence: Sequence, meta: Stat, base: Name, ts: Text, process: u32, sidecar: Content)
      returns (r: Attempt, ghost id: Name, ghost held: seq<Name>)
      requires Valid() && ours == map[] && oursInfo == map[] && taken.None?
      requires sequence.Start() + Budget(MAX_CLAIM_ATTEMPTS, |universe| + 10) < SEQUENCE_END
      modifies this, sequence
      ensures Valid() && old(clock) <= clock && !r.UnsafeStore?
      ensures Submap(old(others), others) && Submap(old(othersInfo), othersInfo)
      ensures r.Trashed? ==> IsStored(id, meta, base, ts, process, sidecar)
      ensures !r.Trashed? ==> taken.None? && (Clean() || UndoFails(old(clock), clock))
      ensures SourceKept(r) && IsDecided(r, base, meta)
      ensures r.Error? ==> CopyCalledFor(old(clock), clock)
      ensures old(GivesUp(base, meta)) || |held| == MAX_CLAIM_ATTEMPTS ==> r == NotTrashed
      ensures |held| <= MAX_CLAIM_ATTEMPTS
      ensures forall i :: 0 <= i < |held| ==> held[i] in others || SaysExists(old(clock), clock)
    {
      hide Leads, Budget, SourceStill, CallsForCopy, TookWhatWasMeant, HoldsWhatWasMeant, IsProper, Kept, Calm, Quiet;
      hide IsFree, Short, UndoFails, Unseized, SaysExists, Submap, IsCalm, IsQuiet, FirstTry, SameInode, StoreValid;
      hide Holds, NoFileLeft, SourceAfter, RecheckDecides, RenameTurns, GivesUp, Answers, CopyCalledFor;
      hide Decided, RenameDecides;
      ghost var v, firstTry := Now(), FirstTry(base, meta);
      var round, dest;
      round, dest, held := ClaimLoop(sequence, meta, base, ts, process, sidecar);
      id := dest;
      ghost var u, hasFile := Now(), HasFile(dest);
      match round {
        case Moved =>
          TurnsOfLeads(v, u);
          OursAreNotOthers();
          MovedIsHeld(dest, taken.value);
          MovedIsDecided(meta, firstTry, v, u, hasFile);
          return Trashed, id, held;
        case Refused(renameError) =>
          r := CopyInstead(dest, renameError, meta, v);
          OursAreNotOthers();
          KeptOthers(u, Now());
          RefusedIsDecided(r, renameError, meta, firstTry, v, u, Now(), hasFile);
        case _ =>
          TurnsOfLeads(v, u);
          NothingIsLeft();
          GivenUpIsDecided(round, meta, firstTry, v, u, hasFile);
          return NotTrashed, id, held;
      }
    }

    /** The file we put there, if it still is there, holds what this version of an inode contains. */
    ghost predicate Holds(name: Name, m: Stat)
      reads this
    {
      name in ours && (name in lost || ours[name].content == contentOf(m))
    }

    lemma MovedIsHeld(name: Name, m: Stat)
      requires ours == map[name := Entry(contentOf(m), m.dev, m.ino)]
      ensures Holds(name, m)
    {}

    lemma NothingIsLeft()
      requires ours == map[]
      ensures NoFileLeft()
    {}

    /** A file of ours holds a version of what the hook saw, and that version is the one taken from
      * the source path unless the path was touched in the turn of the call that took it. */
    ghost predicate HoldsWhatWasMeant(name: Name, meta: Stat)
      reads this
    {
      clock >= 1
      && exists m: Stat :: Holds(name, m) && SameInode(m, meta) && (taken == Some(m) || env(clock - 1).source.Some?)
    }

    /** After a refused rename: copy across devices, or leave the file to the real unlink. */
    method CopyOrLeave(dest: Name, errno: int, meta: Stat) returns (r: Attempt)
      requires Valid() && taken.None? && ours == map[] && dest in oursInfo
      modifies this
      ensures Valid() && Went() && !r.UnsafeStore?
      ensures r.Trashed? ==>
                && taken.Some? && source.None? && ours.Keys == {dest} && oursInfo == old(oursInfo)
                && (Unseized(old(clock), clock) ==> lost == {})
                && HoldsWhatWasMeant(dest, meta)
      ensures !r.Trashed? ==>
                && taken.None?
                && (UndoFails(old(clock), clock) || (NoFileLeft() && oursInfo == Without(old(oursInfo), dest)))
      ensures if CallsForCopy(errno)
              then RecheckDecides(r, meta, old(clock), old(SourceAfter(source, past, env(clock))), Now())
              else r == NotTrashed
      ensures (CallsForCopy(errno) && Calm(old(clock), clock)
               && old(source).Some? && SameInode(old(source).value, meta) && !old(HasFile(dest))) ==>
                (r.Trashed? <==> old(source).value.kind.Regular? || old(source).value.kind.Symlink?)
    {
      if CallsForCopy(errno) {
        r := CopyAndRetire(dest, meta);
      } else {
        RemoveInfo(dest);
        assert env(clock - 1).undoFails.Some? ==> UndoFails(old(clock), clock);
        r := NotTrashed;
      }
    }

    /** The same, in an attempt that began at `v`. */
    method CopyInstead(dest: Name, errno: int, meta: Stat, ghost v: View) returns (r: Attempt)
      requires Valid() && taken.None? && ours == map[] && dest in oursInfo
      requires v.clock < clock && Leads(v, Now()) && Answers(errno, v.clock, clock)
      modifies this
      ensures Valid() && Went() && !r.UnsafeStore? && Leads(v, Now())
      ensures r.Trashed? ==>
                && taken.Some? && source.None? && ours.Keys == {dest} && oursInfo == old(oursInfo)
                && (Unseized(v.clock, clock) ==> lost == {})
                && HoldsWhatWasMeant(dest, meta)
      ensures !r.Trashed? ==>
                && taken.None?
                && (UndoFails(v.clock, clock) || (NoFileLeft() && oursInfo == Without(old(oursInfo), dest)))
      ensures UndoFails(v.clock, old(clock)) ==> UndoFails(v.clock, clock)
      ensures SaysExists(v.clock, old(clock)) ==> SaysExists(v.clock, clock)
      ensures r.Error? ==> CopyCalledFor(v.clock, clock)
      ensures if CallsForCopy(errno)
              then RecheckDecides(r, meta, old(clock), old(SourceAfter(source, past, env(clock))), Now())
              else r == NotTrashed
      ensures (CallsForCopy(errno) && Calm(old(clock), clock)
               && old(source).Some? && SameInode(old(source).value, meta) && !old(HasFile(dest))) ==>
                (r.Trashed? <==> old(source).value.kind.Regular? || old(source).value.kind.Symlink?)
      ensures Submap(v.others, others) && Submap(v.othersInfo, othersInfo)
      ensures SourceStill(v.clock, clock) ==>
                if taken == v.taken then source == v.source else taken == v.source && source.None?
    {
      hide Leads, SourceStill, CallsForCopy, HoldsWhatWasMeant, Kept, Calm, Quiet, UndoFails, Unseized, SaysExists;
      hide Submap, SameInode, StoreValid, Holds, NoFileLeft, SourceAfter, RecheckDecides, Answers, CopyCalledFor;
      ghost var u := Now();
      r := CopyOrLeave(dest, errno, meta);
      if CallsForCopy(errno) { AnswerCallsForCopy(errno, v.clock, u.clock, clock); }
      LeadsOn(v, u, Now());
      TurnsWithin(v.clock, u.clock, clock);
      TurnsOfLeads(v, Now());
    }

    /** The cross-device branch, after the sidecar of `dest` is written. */
    method CopyAndRetire(dest: Name, meta: Stat) returns (r: Attempt)
      requires Valid() && taken.None? && ours == map[] && dest in oursInfo
      modifies this
      ensures Valid() && Went() && !r.UnsafeStore?
      ensures r.Trashed? ==>
                && taken.Some? && source.None? && ours.Keys == {dest} && oursInfo == old(oursInfo)
                && (Unseized(old(clock), clock) ==> lost == {})
                && HoldsWhatWasMeant(dest, meta)
      ensures !r.Trashed? ==>
                && taken.None?
                && (UndoFails(old(clock), clock) || (NoFileLeft() && oursInfo == Without(old(oursInfo), dest)))
      ensures RecheckDecides(r, meta, old(clock), old(SourceAfter(source, past, env(clock))), Now())
      ensures Calm(old(clock), clock)
              && old(source).Some? && SameInode(old(source).value, meta) && !old(HasFile(dest)) ==>
                (r.Trashed? <==> old(source).value.kind.Regular? || old(source).value.kind.Symlink?)
    {
      hide Leads, Calm, UndoFails, StoreValid, Kept, Unseized;
      ghost var v := Now();
      var now := LstatSource();
      ghost var u := Now();
      TurnsWithin(v.clock, v.clock, clock);
      if Calm(v.clock, clock) { CalmKeeps(v, u); }
      if now.None? {
        RemoveInfo(dest);
        LeadsOn(v, u, Now());
        TurnsWithin(v.clock, u.clock, clock);
        return NotTrashed;
      }
      if !SameInode(now.value, meta) {
        RemoveInfo(dest);
        LeadsOn(v, u, Now());
        TurnsWithin(v.clock, u.clock, clock);
        return Error(EBUSY);
      }
      var copied := now.value;
      match copied.kind {
        case Symlink =>
          r := CopyLink(dest, copied);
        case Regular =>
          r := CopyFile(dest, copied);
        case _ =>                                          // directories, FIFOs, sockets, devices
          RemoveInfo(dest);
          r := NotTrashed;
      }
      LeadsOn(v, u, Now());
      TurnsWithin(v.clock, u.clock, clock);
    }

    /** A link: its target is read, the link made again, and the source retired. */
    method CopyLink(dest: Name, copied: Stat) returns (r: Attempt)
      requires Valid() && taken.None? && ours == map[] && dest in oursInfo && (source == Some(copied) || copied in past)
      modifies this
      ensures Valid() && Went() && !r.UnsafeStore?
      ensures r.Trashed? ==>
                && taken.Some? && source.None? && ours.Keys == {dest} && oursInfo == old(oursInfo)
                && (Unseized(old(clock), clock) ==> lost == {})
                && HoldsWhatWasMeant(dest, copied)
      ensures !r.Trashed? ==>
                && taken.None?
                && (UndoFails(old(clock), clock) || (NoFileLeft() && oursInfo == Without(old(oursInfo), dest)))
      ensures Calm(old(clock), clock) && old(source) == Some(copied) && copied.kind.Symlink? && !old(HasFile(dest)) ==>
                r.Trashed?
    {
      hide Leads, Calm, UndoFails, Quiet, HoldsWhatWasMeant, StoreValid, Kept, Unseized;
      ghost var v := Now();
      var target := ReadLink();
      TurnsWithin(v.clock, v.clock, clock);
      ghost var u := Now();
      if Calm(v.clock, clock) { CalmKeeps(v, u); }
      if target.Some? {
        r := MakeLink(dest, copied, target.value);
      } else {
        RemoveInfo(dest);
        r := NotTrashed;
      }
      LeadsOn(v, u, Now());
      TurnsWithin(v.clock, u.clock, clock);
    }

    /** Make the link again and retire the source. */
    method MakeLink(dest: Name, copied: Stat, target: Content) returns (r: Attempt)
      requires Valid() && taken.None? && ours == map[] && dest in oursInfo
      requires (source == Some(copied) && target == contentOf(copied)) || copied in past
      modifies this
      ensures Valid() && Went() && !r.UnsafeStore?
      ensures r.Trashed? ==>
                && taken.Some? && source.None? && ours.Keys == {dest} && oursInfo == old(oursInfo)
                && (Unseized(old(clock), clock) ==> lost == {})
                && HoldsWhatWasMeant(dest, copied)
      ensures !r.Trashed? ==>
                && taken.None?
                && (UndoFails(old(clock), clock) || (NoFileLeft() && oursInfo == Without(old(oursInfo), dest)))
      ensures Calm(old(clock), clock) && old(source) == Some(copied) && copied.kind.Symlink? && !old(HasFile(dest)) ==>
                r.Trashed?
    {
      hide Leads, Calm, UndoFails, Quiet, HoldsWhatWasMeant, StoreValid, Kept, Unseized;
      ghost var v := Now();
      var error, t := CreateFile(dest, target);
      TurnsWithin(v.clock, v.clock, clock);
      if Calm(v.clock, clock) { CalmKeeps(v, Now()); }
      ghost var u := Now();
      if error.None? {
        r := RetireLink(dest, copied);
      } else {
        RemoveInfo(dest);
        r := NotTrashed;
      }
      LeadsOn(v, u, Now());
      TurnsWithin(v.clock, u.clock, clock);
    }

    /** Look at the link just made, to know it again, and retire the source. */
    method RetireLink(dest: Name, copied: Stat) returns (r: Attempt)
      requires Valid() && taken.None? && ours.Keys == {dest} && lost == {} && dest in oursInfo
      requires Holds(dest, copied) || copied in past
      modifies this
      ensures Valid() && Went() && !r.UnsafeStore?
      ensures r.Trashed? ==>
                && taken.Some? && source.None? && ours.Keys == {dest} && oursInfo == old(oursInfo)
                && (Unseized(old(clock), clock) ==> lost == {})
                && HoldsWhatWasMeant(dest, copied)
      ensures !r.Trashed? ==>
                && taken.None?
                && (UndoFails(old(clock), clock) || (NoFileLeft() && oursInfo == Without(old(oursInfo), dest)))
      ensures Calm(old(clock), clock) && old(source) == Some(copied) && copied.kind.Symlink? ==> r.Trashed?
    {
      hide Leads, Calm, UndoFails, StoreValid, Quiet, SourceStill, Submap, IsQuiet, SaysExists, Seized;
      hide Unseized;
      ghost var v := Now();
      var created := LstatOwn(dest);
      assert dest in ours;
      TurnsWithin(v.clock, v.clock, clock);
      ghost var u := Now();
      if Calm(v.clock, clock) { CalmKeeps(v, u); }
      r := RetireCopiedSource(dest, copied, created);
      LeadsOn(v, u, Now());
      TurnsWithin(v.clock, u.clock, clock);
      assert r.Trashed? ==> Holds(dest, copied);
    }

    /** A regular file: one version of it is copied, and the source retired. */
    method CopyFile(dest: Name, copied: Stat) returns (r: Attempt)
      requires Valid() && taken.None? && ours == map[] && dest in oursInfo
      modifies this
      ensures Valid() && Went() && !r.UnsafeStore?
      ensures r.Trashed? ==>
                && taken.Some? && source.None? && ours.Keys == {dest} && oursInfo == old(oursInfo)
                && (Unseized(old(clock), clock) ==> lost == {})
                && HoldsWhatWasMeant(dest, copied)
      ensures !r.Trashed? ==>
                && taken.None?
                && (UndoFails(old(clock), clock) || (NoFileLeft() && oursInfo == Without(old(oursInfo), dest)))
      ensures Calm(old(clock), clock) && CanCopy(old(source), copied) && !old(HasFile(dest)) ==> r.Trashed?
      // Once the path is seen to name another version, the deletion is refused.
      ensures r.NotTrashed? ==> source.None? || source == Some(copied) || env(clock - 1).fails.Some?
    {
      hide Leads, Calm, UndoFails, StoreValid, Kept, Unseized;
      ghost var v := Now();
      var copy, created := CopyRegular(dest, copied);
      ghost var u := Now();
      if Calm(v.clock, clock) { CalmKeeps(v, u); }
      if copy.Ok? {
        r := RetireCopiedSource(dest, copy.value, created);
        assert r.Trashed? ==> Holds(dest, copy.value);
      } else {
        r := DropFailedCopy(dest, copied, created, copy.error);
      }
      LeadsOn(v, u, Now());
      TurnsWithin(v.clock, u.clock, clock);
    }

    /** What follows a copy that failed: nothing of it stays. */
    method DropFailedCopy(dest: Name, copied: Stat, created: Option<(nat, nat)>, error: int) returns (r: Attempt)
      requires Valid() && taken.None? && dest in oursInfo
      requires ours == map[] || ours.Keys == {dest}
      requires created.Some? ==> dest in ours && (dest in lost || IdOf(ours[dest]) == created.value)
      modifies this
      ensures Valid() && Went() && taken.None?
      ensures r == Error(EBUSY) || (r.NotTrashed? && error != EBUSY)
      ensures r.NotTrashed? ==> source.None? || source == Some(copied) || env(clock - 1).fails.Some?
      ensures UndoFails(old(clock), clock)
              || (oursInfo == Without(old(oursInfo), dest) && (created.Some? || old(ours) == map[] ==> NoFileLeft()))
    {
      hide Leads;
      ghost var v := Now();
      Undo(dest, created);
      if error == EBUSY {
        return Error(EBUSY);
      }
      ghost var u := Now();
      var after := LstatSource();
      LeadsOn(v, u, Now());
      TurnsWithin(v.clock, u.clock, clock);
      return if after.Some? && after.value != copied then Error(EBUSY) else NotTrashed;
    }
  }

  // ---------------------------------------------------------------- a check that is overlooked

  const CALM_TURN := Turn(map[], map[], map[], None, 0, [], (0, 0), None, None)

  /** The fourth call of an attempt fails: the check of the source just before the rename. */
  function BlindCheck(k: nat): Turn {
    if k == 3 then CALM_TURN.(fails := Some(EACCES)) else CALM_TURN
  }

  /** On such turns a file is trashed that is not the one the hook saw. */
  method OverlookedCheckRun(env: nat -> Turn, sequence: Sequence, source: Stat, meta: Stat, sidecar: Content)
    returns (d: Disk)
    requires env == BlindCheck && !SameInode(source, meta)
    requires sequence.Start() + Budget(MAX_CLAIM_ATTEMPTS, 10) < SEQUENCE_END
    modifies sequence
    ensures d.env == env && d.taken == Some(source) && d.source.None?
  {
    d := new Disk(env, s => [], {}, Some(source), map[], map[]);
    var r, id, held := d.TryTrash(sequence, meta, false, Available, true, [97], [], 1, sidecar);
  }

  const EACCES := 13
  const ELOOP := 40

  /** The opened inode after the environment wrote it. */
  function Rewritten(handle: Stat, t: Turn): (r: Stat)
    ensures r.version >= handle.version && SameInode(r, handle) && r.kind == handle.kind
  {
    handle.(version := handle.version + t.rewrites)
  }

  /** Sequence numbers that `rounds` rounds may draw. */
  function Budget(rounds: nat, each: nat): nat {
    if rounds == 0 then 0 else each + Budget(rounds - 1, each)
  }

  /** The name a sequence number gives. */
  function NumberedName(names: CollisionNames, n: u64): Name {
    Candidate(names.basename, SequenceSuffix(names.timestamp, names.process, n))
  }

  /** The names given by the numbers from `start` up to, not including, `next`. */
  ghost function Drawn(names: CollisionNames, start: u64, next: nat): set<Name>
    requires next <= SEQUENCE_END
    decreases next
  {
    if next <= start then {} else Drawn(names, start, next - 1) + {NumberedName(names, next - 1)}
  }

  lemma {:induction false} DrawnEarlier(names: CollisionNames, start: u64, next: nat, n: u64)
    requires next <= n
    ensures NumberedName(names, n) !in Drawn(names, start, next)
    decreases next
  {
    if next > start {
      DrawnEarlier(names, start, next - 1, n);
      CandidatesDiffer(names.basename, names.timestamp, names.process, next - 1, n);
    }
  }

  /** Names never repeat: as many names as numbers, so a finite `bound` runs out. */
  lemma {:induction false} DrawnSize(names: CollisionNames, start: u64, next: nat, bound: set<Name>)
    requires start <= next <= SEQUENCE_END && Drawn(names, start, next) <= bound
    ensures |Drawn(names, start, next)| == next - start <= |bound|
    decreases next
  {
    hide NumberedName;
    if next > start {
      var before, name := Drawn(names, start, next - 1), NumberedName(names, next - 1);
      DrawnSize(names, start, next - 1, bound);
      DrawnEarlier(names, start, next - 1, next - 1);
      assert Drawn(names, start, next) == before + {name} && |before + {name}| == |before| + 1;
    }
    SubsetSize(Drawn(names, start, next), bound);
  }

  lemma DrawnNone(names: CollisionNames, start: u64)
    ensures Drawn(names, start, start) == {}
  {}

  lemma DrawnNext(names: CollisionNames, start: u64, next: u64, bound: set<Name>)
    requires start <= next && Drawn(names, start, next) <= bound && NumberedName(names, next) in bound
    ensures Drawn(names, start, next + 1) <= bound && next + 1 - start <= |bound|
  {
    DrawnSize(names, start, next + 1, bound);
  }

  lemma SubsetSize<T>(a: set<T>, b: set<T>)
    requires a <= b
    ensures |a| <= |b|
  {
    assert |b - a| + |a| == |b| by { assert (b - a) + a == b; }
  }
}
