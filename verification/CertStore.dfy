/**
 The commit of an issued key and chain into the store: a staging directory is
 seeded by hard links from the live one, this key type's files are written into
 it, and one rename publishes it. Every system call may fail, and the process
 may die between any two of them; `trace` keeps every state the disk went
 through.
 */
module CertStore {
  import opened Bytes

  /** An entry of a per-name directory; a Subdir cannot be unlinked as a file. */
  datatype Node = File(ino: nat) | Symlink | Subdir

  /** What stands at a leaf of the container; Foreign is a file or a symbolic link. */
  datatype Entry = Absent | Directory(names: map<string, Node>) | Foreign

  /** The live and staging leaves of one name, the file contents, and the next unused inode. */
  datatype State = State(live: Entry, staging: Entry, content: map<nat, string>, next: nat)

  datatype KeyType = Ec | Rsa

  /** The issued pair; the certbot layout also keeps the leaf and the rest of the chain apart. */
  datatype Job = Job(kt: KeyType, certbot: bool, key: string, chain: string)

  const STORE_FILES: seq<string> := [
    "privkey.pem", "fullchain.pem", "cert.pem", "chain.pem",
    "privkey.rsa.pem", "fullchain.rsa.pem", "cert.rsa.pem", "chain.rsa.pem"]

  function PrivName(kt: KeyType): string { if kt.Rsa? then "privkey.rsa.pem" else "privkey.pem" }
  function ChainName(kt: KeyType): string { if kt.Rsa? then "fullchain.rsa.pem" else "fullchain.pem" }
  function LeafName(kt: KeyType): string { if kt.Rsa? then "cert.rsa.pem" else "cert.pem" }
  function RestName(kt: KeyType): string { if kt.Rsa? then "chain.rsa.pem" else "chain.pem" }

  predicate IsOwn(kt: KeyType, name: string) {
    name == PrivName(kt) || name == ChainName(kt) || name == LeafName(kt) || name == RestName(kt)
  }

  /** A name of the other key type: what a store must carry forward. */
  predicate IsOther(kt: KeyType, name: string) {
    name in STORE_FILES && !IsOwn(kt, name)
  }

  // --------------------------------------------------- splitting the chain

  const END_MARKER := "-----END CERTIFICATE-----"

  predicate IsNewline(c: char) { c == '\r' || c == '\n' }

  /** The length of the leading certificate, its marker and the newlines after it included. */
  function LeafLength(full: string): (r: Option<nat>)
    ensures r.Some? ==> r.value <= |full|
  {
    match Find(full, END_MARKER, 0)
    case None => None
    case Some(i) => Some(SkipNewlines(full, i + |END_MARKER|))
  }

  function SkipNewlines(s: string, i: nat): (j: nat)
    requires i <= |s|
    ensures i <= j <= |s|
    decreases |s| - i
  {
    if i < |s| && IsNewline(s[i]) then SkipNewlines(s, i + 1) else i
  }

  lemma {:induction false} LeafLengthIs(full: string, at: Option<nat>)
    requires Find(full, END_MARKER, 0) == at
    ensures at.None? ==> LeafLength(full) == None
    ensures at.Some? ==> at.value + |END_MARKER| <= |full| && LeafLength(full) == Some(SkipNewlines(full, at.value + |END_MARKER|))
  {
    hide Find;
  }

  /** The first certificate's end marker stands at `i`, and the newlines behind it reach to `k`. */
  ghost predicate FirstCertificate(full: string, i: nat, k: nat) {
    && Occurs(full, "-----END CERTIFICATE-----", i) && (forall j :: 0 <= j < i ==> !Occurs(full, "-----END CERTIFICATE-----", j))
    && i + 25 <= k <= |full| && (forall j :: i + 25 <= j < k ==> full[j] in {'\r', '\n'})
    && (k < |full| ==> full[k] !in {'\r', '\n'})
  }

  method AfterNewlines(full: string, start: nat) returns (off: nat)
    requires start <= |full|
    ensures off == SkipNewlines(full, start) && start <= off <= |full|
    ensures (forall j :: start <= j < off ==> full[j] in {'\r', '\n'}) && (off < |full| ==> full[off] !in {'\r', '\n'})
  {
    off := start;
    while off < |full| && IsNewline(full[off])
      invariant start <= off <= |full| && SkipNewlines(full, off) == SkipNewlines(full, start)
      invariant forall j :: start <= j < off ==> full[j] in {'\r', '\n'}
    {
      off := off + 1;
    }
  }

  /**
   The leaf is the text through the first end marker and its newlines, the
   rest is what follows: together they are the chain, byte for byte.
   */
  method SplitChain(full: string) returns (ok: bool, leaf: string, rest: string)
    ensures ok <==> LeafLength(full).Some?
    ensures ok ==> leaf + rest == full && |leaf| == LeafLength(full).value
    ensures if ok then exists i :: FirstCertificate(full, i, |leaf|) else forall i :: !Occurs(full, "-----END CERTIFICATE-----", i)
  {
    hide Find, SkipNewlines, LeafLength;
    var i: nat := 0;
    while i + |END_MARKER| <= |full| && full[i..i + |END_MARKER|] != END_MARKER
      invariant forall j :: 0 <= j < i ==> !Occurs(full, END_MARKER, j)
    {
      i := i + 1;
    }
    if i + |END_MARKER| > |full| {
      FindIs(full, END_MARKER, 0, None);
      LeafLengthIs(full, None);
      return false, "", "";
    }
    FindIs(full, END_MARKER, 0, Some(i));
    LeafLengthIs(full, Some(i));
    var off := AfterNewlines(full, i + |END_MARKER|);
    assert FirstCertificate(full, i, off);
    ok, leaf, rest := true, full[..off], full[off..];
  }

  // ------------------------------------------------ well-formed disk states

  /** Directory entries that name the inode `ino`. */
  function Links(e: Entry, ino: nat): set<string> {
    if e.Directory? then set n | n in e.names && e.names[n] == File(ino) else {}
  }

  function Nlink(st: State, ino: nat): nat { |Links(st.live, ino)| + |Links(st.staging, ino)| }

  ghost predicate WfEntry(e: Entry, content: map<nat, string>) {
    e.Directory? ==>
      && (forall n :: n in e.names && e.names[n].File? ==> e.names[n].ino in content)
      && (forall m, n :: m in e.names && n in e.names && e.names[m].File? && e.names[m] == e.names[n] ==> m == n)
  }

  /** Files have contents, no directory links a file twice, and unused inodes are unused. */
  ghost predicate Wf(st: State) {
    && WfEntry(st.live, st.content) && WfEntry(st.staging, st.content)
    && forall i :: i in st.content ==> i < st.next
  }

  /** The clean-up can empty it: only listed names, none of them a directory. */
  predicate Clearable(e: Entry) {
    e.Directory? ==> forall n :: n in e.names ==> n in STORE_FILES && !e.names[n].Subdir?
  }

  /** The live directory still is what it was at `st0`, contents included. */
  ghost predicate HoldsOld(st: State, st0: State) {
    && st.live == st0.live
    && (st0.live.Directory? ==>
          forall n :: n in st0.live.names && st0.live.names[n].File? ==>
            && st0.live.names[n].ino in st0.content && st0.live.names[n].ino in st.content
            && st.content[st0.live.names[n].ino] == st0.content[st0.live.names[n].ino])
  }

  /** A directory that holds exactly the files of `gen`. */
  ghost predicate Holds(e: Entry, content: map<nat, string>, gen: map<string, string>) {
    && e.Directory? && e.names.Keys == gen.Keys
    && forall n :: n in gen ==> e.names[n].File? && e.names[n].ino in content && content[e.names[n].ino] == gen[n]
  }

  /** The files of the other key type, as the live directory of `st0` has them. */
  ghost function Carried(st0: State, kt: KeyType): map<string, string>
    requires Wf(st0)
  {
    if st0.live.Directory? then
      map n | n in st0.live.names && IsOther(kt, n) && st0.live.names[n].File? :: st0.content[st0.live.names[n].ino]
    else map[]
  }

  /** The files this key type writes. */
  function Own(job: Job): map<string, string> {
    var pair := map[PrivName(job.kt) := job.key, ChainName(job.kt) := job.chain];
    if job.certbot && LeafLength(job.chain).Some? then
      var k := LeafLength(job.chain).value;
      pair[LeafName(job.kt) := job.chain[..k]][RestName(job.kt) := job.chain[k..]]
    else pair
  }

  /** The new generation: this key type's new files beside the other's unchanged ones. */
  ghost function NewGen(st0: State, job: Job): map<string, string>
    requires Wf(st0)
  {
    Carried(st0, job.kt) + Own(job)
  }

  predicate Storable(job: Job) { job.certbot ==> LeafLength(job.chain).Some? }

  /** A state a store of `gen` may pass through: the old generation or the new one, nothing in between. */
  ghost predicate Good(st: State, st0: State, gen: map<string, string>) {
    && Wf(st)
    && (HoldsOld(st, st0) || Holds(st.live, st.content, gen))
    && (Clearable(st0.live) && Clearable(st0.staging) ==> Clearable(st.live) && Clearable(st.staging))
  }

  /** Staging holds links to the other key type's live files and freshly written files of its own. */
  ghost predicate Staged(st: State, st0: State, kt: KeyType) {
    && st.staging.Directory?
    && forall n :: n in st.staging.names ==>
         && st.staging.names[n].File?
         && (IsOther(kt, n) ==> st0.live.Directory? && n in st0.live.names && st0.live.names[n] == st.staging.names[n])
         && (!IsOther(kt, n) ==> IsOwn(kt, n) && st.staging.names[n].ino >= st0.next)
  }

  // -------------------------------------------------------------- the disk

  class Disk {
    var now: State
    var clock: nat
    const fails: nat -> bool

    var trace: seq<State>           // every state since the current store began
    ghost var st0: State            // where it began
    ghost var gen: map<string, string>

    ghost predicate Inv()
      reads this
    {
      && Wf(st0) && st0.next <= now.next && Good(now, st0, gen)
      && trace != [] && trace[0] == st0 && trace[|trace| - 1] == now
      && forall i :: 0 <= i < |trace| ==> Good(trace[i], st0, gen)
    }

    /** No system call fails. */
    ghost predicate Quiet() { forall k: nat :: !fails(k) }

    constructor (start: State, faults: nat -> bool)
      ensures now == start && fails == faults
    {
      now := start;
      clock := 0;
      fails := faults;
      trace := [];
      st0 := start;
      gen := map[];
    }

    /** Does the next system call fail? */
    method Fails() returns (f: bool)
      modifies this`clock
      ensures Quiet() ==> !f
    {
      f := fails(clock);
      clock := clock + 1;
    }

    /** A system call that succeeded and left the disk in `st`. */
    method Becomes(st: State)
      requires Inv() && Good(st, st0, gen) && now.next <= st.next
      modifies this`now, this`trace
      ensures Inv() && now == st && trace == old(trace) + [st]
    {
      now := st;
      trace := trace + [st];
    }

    /** unlinkat() of one name of the staging directory. */
    method UnlinkStaged(name: string)
      requires Inv() && now.staging.Directory?
      modifies this`now, this`trace, this`clock
      ensures Inv() && now.live == old(now.live) && now.content == old(now.content)
      ensures || now.staging == old(now.staging)
              || (&& name in old(now.staging.names) && !old(now.staging.names)[name].Subdir?
                  && now.staging == Directory(old(now.staging.names) - {name}))
      ensures Quiet() ==>
                now.staging == if name in old(now.staging.names) && !old(now.staging.names)[name].Subdir?
                               then Directory(old(now.staging.names) - {name}) else old(now.staging)
    {
      var f := Fails();
      if !f && name in now.staging.names && !now.staging.names[name].Subdir? {
        ReplaceGood(now, st0, gen, Directory(now.staging.names - {name}));
        hide Good;
        Becomes(now.(staging := Directory(now.staging.names - {name})));
      }
    }

    /**
     Best-effort removal of the staging leaf. Without faults it succeeds
     exactly when the leaf is clearable; a leaf that is not clearable stays so,
     whatever fails.
     */
    method RmStaging()
      requires Inv()
      modifies this`now, this`trace, this`clock
      ensures Inv() && now.live == old(now.live) && now.content == old(now.content)
      ensures now.staging.Directory? ==> old(now.staging.Directory?) && now.staging.names.Keys <= old(now.staging.names.Keys)
      ensures Quiet() && Clearable(old(now.staging)) ==> now.staging == Absent
      ensures !Clearable(old(now.staging)) ==> now.staging.Directory? && !Clearable(now.staging)
    {
      hide Good;
      if now.staging == Absent {
        return;
      }
      var f := Fails();
      if now.staging == Foreign {
        if !f {
          ReplaceGood(now, st0, gen, Absent);
          Becomes(now.(staging := Absent));
        }
        return;
      }
      if f {
        return;
      }
      ghost var was := now.staging.names;
      for i := 0 to |STORE_FILES|
        invariant Inv() && now.live == old(now.live) && now.content == old(now.content)
        invariant now.staging.Directory? && now.staging.names.Keys <= was.Keys
        invariant forall n :: n in now.staging.names ==> now.staging.names[n] == was[n]
        invariant forall n :: n in was && (n !in STORE_FILES || was[n].Subdir?) ==> n in now.staging.names
        invariant Quiet() ==> forall j :: 0 <= j < i && STORE_FILES[j] in now.staging.names ==> was[STORE_FILES[j]].Subdir?
      {
        UnlinkStaged(STORE_FILES[i]);
      }
      f := Fails();
      if !f && now.staging.names == map[] {
        ReplaceGood(now, st0, gen, Absent);
        Becomes(now.(staging := Absent));
      }
    }

    /** linkat() of one live file into staging. */
    method LinkStaged(name: string, kt: KeyType) returns (ok: bool)
      requires Inv() && HoldsOld(now, st0) && Staged(now, st0, kt) && IsOther(kt, name)
      requires st0.live.Directory? && name in st0.live.names && st0.live.names[name].File?
      modifies this`now, this`trace, this`clock
      ensures Inv() && HoldsOld(now, st0) && Staged(now, st0, kt) && now.live == old(now.live)
      ensures ok ==> now.staging.names == old(now.staging.names)[name := st0.live.names[name]]
      ensures !ok ==> now.staging == old(now.staging)
      ensures now.staging.Directory?
      ensures Quiet() ==> ok
    {
      hide Good, Staged, HoldsOld, Wf, IsOther, Seeded, Linked, STORE_FILES;
      StagedIs(now, st0, kt);
      LinkPre(now, st0, name, kt);
      LinkedIs(now, name, st0.live.names[name]);
      var f := Fails();
      if f {
        return false;
      }
      LinkGood(now, st0, gen, name, kt);
      Becomes(Linked(now, name, now.live.names[name]));
      ok := true;
    }

    /** One leaf of the other key type, if the live directory has it. */
    method SeedOne(name: string, kt: KeyType) returns (ok: bool)
      requires Inv() && Seeding(now, st0, kt) && name in STORE_FILES
      modifies this`now, this`trace, this`clock
      ensures Inv() && Seeding(now, st0, kt)
      ensures forall n :: n in old(now.staging.names) ==> n in now.staging.names
      ensures ok && Seeded(st0, kt, name) ==> name in now.staging.names
      ensures Quiet() ==> ok
    {
      hide Good, Wf, HoldsOld, Staged, Seeding, IsOwn;
      SeedingParts(now, st0, kt);
      if IsOwn(kt, name) {
        OwnNotSeeded(st0, kt, name);
        return true;
      }
      var f := Fails();
      if f {
        return false;
      }
      if name !in now.live.names || !now.live.names[name].File? {
        return true;
      }
      ok := LinkStaged(name, kt);
      SeedingMade(now, st0, kt);
    }

    /**
     Carry the other key type's files into staging by hard link. A file that
     is present and cannot be carried fails the whole store.
     */
    method SeedStaging(kt: KeyType) returns (ok: bool)
      requires Inv() && HoldsOld(now, st0) && now.staging == Directory(map[])
      modifies this`now, this`trace, this`clock
      ensures Inv() && HoldsOld(now, st0) && Staged(now, st0, kt)
      ensures ok ==> Holds(now.staging, now.content, Carried(st0, kt))
      ensures Quiet() ==> ok
    {
      hide Good, Wf, HoldsOld, Staged, Holds, IsOwn, Seeding, Seeded, Carried;
      SeedingStarts(now, st0, kt);
      var f := Fails();
      if !now.live.Directory? {
        return !f;
      }
      if f {
        return false;
      }
      for i := 0 to |STORE_FILES|
        invariant Inv() && Seeding(now, st0, kt) && now.staging.Directory?
        invariant forall j :: 0 <= j < i && Seeded(st0, kt, STORE_FILES[j]) ==> STORE_FILES[j] in now.staging.names
      {
        SeedingParts(now, st0, kt);
        ok := SeedOne(STORE_FILES[i], kt);
        SeedingParts(now, st0, kt);
        if !ok {
          return;
        }
      }
      SeedingParts(now, st0, kt);
      SeededAll(now, st0, kt);
      ok := true;
    }

    /** The inode behind a staging leaf, created when the leaf is absent. */
    method OpenStaged(leaf: string, kt: KeyType, ghost g: map<string, string>) returns (ok: bool, ino: nat, ghost text: string)
      requires Inv() && HoldsOld(now, st0) && Staged(now, st0, kt) && IsOwn(kt, leaf)
      requires Holds(now.staging, now.content, g)
      modifies this`now, this`trace, this`clock
      ensures Inv() && HoldsOld(now, st0) && Staged(now, st0, kt)
      ensures ok ==> leaf in now.staging.names && now.staging.names[leaf] == File(ino) && Nlink(now, ino) == 1
      ensures ok ==> Holds(now.staging, now.content, g[leaf := text])
      ensures Quiet() ==> ok
    {
      hide Good, HoldsOld, Holds, Wf, Nlink, IsOther, Created;
      StagedIs(now, st0, kt);
      HeldText(now, g);
      CreatedIs(now, leaf);
      var f := Fails();
      if f {
        return false, 0, "";
      }
      if leaf in now.staging.names {
        ino, text := now.staging.names[leaf].ino, g[leaf];
        assert g[leaf := text] == g;
      } else {
        ino, text := now.next, "";
        CreateGood(now, st0, gen, leaf, kt, g);
        Becomes(Created(now, leaf));
      }
      OwnLink(now, st0, gen, leaf, kt);
      f := Fails();
      ok := !f && Nlink(now, ino) == 1;
    }

    /** The file behind a staging leaf of this key type now holds `text`. */
    method SetText(leaf: string, kt: KeyType, ino: nat, text: string, ghost g: map<string, string>, ghost was: string)
      requires Inv() && HoldsOld(now, st0) && Staged(now, st0, kt) && IsOwn(kt, leaf)
      requires leaf in now.staging.names && now.staging.names[leaf] == File(ino)
      requires Holds(now.staging, now.content, g[leaf := was])
      modifies this`now, this`trace
      ensures Inv() && HoldsOld(now, st0) && Staged(now, st0, kt)
      ensures now.staging == old(now.staging) && Holds(now.staging, now.content, g[leaf := text])
    {
      WriteGood(now, st0, gen, leaf, kt, text, g, was);
      hide Good, HoldsOld, Staged, Holds;
      Becomes(now.(content := now.content[ino := text]));
    }

    /**
     Write one file of the pair into staging: create it, refuse anything but
     a single-linked regular file, then truncate, write in whatever pieces the
     system accepts, sync and close. The live directory is untouched throughout.
     */
    method WriteTmp(leaf: string, data: string, kt: KeyType, ghost g: map<string, string>) returns (ok: bool)
      requires Inv() && HoldsOld(now, st0) && Staged(now, st0, kt) && IsOwn(kt, leaf)
      requires Holds(now.staging, now.content, g)
      modifies this`now, this`trace, this`clock
      ensures Inv() && HoldsOld(now, st0) && Staged(now, st0, kt)
      ensures ok ==> Holds(now.staging, now.content, g[leaf := data])
      ensures Quiet() ==> ok
    {
      hide Good, HoldsOld, Holds, Nlink, IsOther;
      var ino, f;
      ghost var text;
      ok, ino, text := OpenStaged(leaf, kt, g);
      if !ok {
        return;
      }
      f := Fails();
      if f {
        return false;
      }
      SetText(leaf, kt, ino, "", g, text);
      f := Fails();
      if !f {
        var written := WriteAll(leaf, data, kt, ino, g);
        f := !written;
      }
      if !f {
        f := Fails();
      }
      if !f {
        f := Fails();
      }
      if f {
        var was := now;
        UnlinkStaged(leaf);
        UnstageGood(was, now, st0, kt);
        return false;
      }
      ok := true;
    }

    /** The write loop: in whatever pieces the system accepts. */
    method WriteAll(leaf: string, data: string, kt: KeyType, ino: nat, ghost g: map<string, string>) returns (ok: bool)
      requires Inv() && HoldsOld(now, st0) && Staged(now, st0, kt) && IsOwn(kt, leaf)
      requires leaf in now.staging.names && now.staging.names[leaf] == File(ino)
      requires Holds(now.staging, now.content, g[leaf := ""])
      modifies this`now, this`trace, this`clock
      ensures Inv() && HoldsOld(now, st0) && Staged(now, st0, kt)
      ensures ok ==> Holds(now.staging, now.content, g[leaf := data])
      ensures Quiet() ==> ok
    {
      hide Good, HoldsOld, Holds, Nlink, IsOther;
      var off: nat, f := 0, false;
      assert data[..off] == "";
      while !f && off < |data|
        invariant Inv() && HoldsOld(now, st0) && Staged(now, st0, kt)
        invariant leaf in now.staging.names && now.staging.names[leaf] == File(ino)
        invariant off <= |data| && Holds(now.staging, now.content, g[leaf := data[..off]])
        invariant Quiet() ==> !f
        decreases !f, |data| - off
      {
        f := Fails();
        if !f {
          var n: nat :| 1 <= n <= |data| - off;
          SetText(leaf, kt, ino, data[..off + n], g, data[..off]);
          off := off + n;
        }
      }
      assert off == |data| ==> data[..off] == data;
      ok := !f;
    }

    /** A fresh staging directory, the other key type's links and this one's new files. */
    method FillStaging(job: Job) returns (ok: bool)
      requires Inv() && HoldsOld(now, st0) && now.staging == Directory(map[])
      modifies this`now, this`trace, this`clock
      ensures Inv() && HoldsOld(now, st0)
      ensures ok ==> Storable(job) && Staged(now, st0, job.kt) && Holds(now.staging, now.content, NewGen(st0, job))
      ensures Quiet() && Storable(job) ==> ok
    {
      hide Good, HoldsOld, Holds, Staged, Carried;
      ok := SeedStaging(job.kt);
      if !ok {
        return;
      }
      ghost var g := Carried(st0, job.kt);
      ok := WriteTmp(PrivName(job.kt), job.key, job.kt, g);
      if !ok {
        return;
      }
      g := g[PrivName(job.kt) := job.key];
      ok := WriteTmp(ChainName(job.kt), job.chain, job.kt, g);
      if !ok {
        return;
      }
      g := g[ChainName(job.kt) := job.chain];
      if job.certbot {
        var leaf, rest;
        ok, leaf, rest := SplitChain(job.chain);
        if !ok {
          return;
        }
        ok := WriteTmp(LeafName(job.kt), leaf, job.kt, g);
        if !ok {
          return;
        }
        g := g[LeafName(job.kt) := leaf];
        ok := WriteTmp(RestName(job.kt), rest, job.kt, g);
        if !ok {
          return;
        }
        g := g[RestName(job.kt) := rest];
        assert leaf == job.chain[..|leaf|] && rest == job.chain[|leaf|..];
      }
      NewGenIs(st0, job);
      var f := Fails();
      ok := !f;
    }

    /** Publish staging by one rename: a move when there is no live leaf, an exchange when it is a directory. */
    method Publish(job: Job) returns (ok: bool)
      requires Inv() && HoldsOld(now, st0) && Staged(now, st0, job.kt)
      requires Holds(now.staging, now.content, gen)
      modifies this`now, this`trace, this`clock
      ensures Inv()
      ensures ok ==> Holds(now.live, now.content, gen)
      ensures ok ==> now.staging == if st0.live == Absent then Absent else st0.live
      ensures !ok ==> HoldsOld(now, st0) && Staged(now, st0, job.kt) && now.staging == old(now.staging)
      ensures Quiet() ==> (ok <==> st0.live != Foreign)
    {
      var f := Fails();
      if !f && now.live != Foreign {
        f := Fails();
      }
      if f || now.live == Foreign {
        return false;
      }
      var left := if now.live == Absent then Absent else now.live;
      PublishGood(now, st0, job.kt, gen, left);
      hide Good, Holds;
      Becomes(now.(live := now.staging, staging := left));
      ok := true;
    }

    /** The state after `k` steps of the last store, or its end if it took fewer. */
    method StateAt(k: nat) returns (st: State)
      requires trace != []
      ensures st in trace
    {
      st := if k < |trace| then trace[k] else trace[|trace| - 1];
    }

    /** The steps of a commit, after its starting point was noted. */
    method Run(job: Job) returns (ok: bool)
      requires Inv() && now == st0 && gen == NewGen(st0, job)
      modifies this`now, this`trace, this`clock
      ensures Inv()
      ensures ok ==> Holds(now.live, now.content, gen)
      ensures Quiet() ==> (ok <==> Clearable(st0.staging) && st0.live != Foreign && Storable(job))
      ensures Quiet() && ok ==> (now.staging == Absent <==> Clearable(st0.live))
      ensures Quiet() && ok && now.staging != Absent ==> !Clearable(now.staging)
      ensures !Clearable(st0.staging) ==> !ok && now.live == st0.live && now.content == st0.content && !Clearable(now.staging)
    {
      hide Good, Holds, Staged, Storable, NewGen;
      var f := Fails();
      if f {
        return false;
      }
      RmStaging();
      f := Fails();
      if f || now.staging != Absent {
        return false;
      }
      ReplaceGood(now, st0, gen, Directory(map[]));
      Becomes(now.(staging := Directory(map[])));
      f := Fails();
      if !f {
        ok := FillStaging(job);
        if ok {
          ok := Publish(job);
          if ok {
            RmStaging();
            f := Fails();
            return !f;
          }
        }
      }
      RmStaging();
      return false;
    }

    /**
     The whole commit. Whatever fails and wherever the process dies, every
     state on the way shows the old generation or the new one; a store that
     reports success shows the new one. Without faults it succeeds exactly
     when staging can be cleared, the live leaf is not foreign and the chain
     splits, and it leaves no staging behind exactly when the old live
     directory can be cleared. A staging directory that cannot be cleared makes
     it fail, whatever else happens, and stays.
     */
    method Store(job: Job) returns (ok: bool)
      requires Wf(now)
      modifies this
      ensures forall i :: 0 <= i < |trace| ==>
                Wf(trace[i]) && (HoldsOld(trace[i], old(now)) || Holds(trace[i].live, trace[i].content, NewGen(old(now), job)))
      ensures Clearable(old(now.live)) && Clearable(old(now.staging)) ==>
                forall i :: 0 <= i < |trace| ==> Clearable(trace[i].live) && Clearable(trace[i].staging)
      ensures trace != [] && trace[0] == old(now) && trace[|trace| - 1] == now
      ensures ok ==> Holds(now.live, now.content, NewGen(old(now), job))
      ensures ok && now.staging == Absent ==> forall n :: n in NewGen(old(now), job) ==> Nlink(now, now.live.names[n].ino) == 1
      ensures Quiet() ==> (ok <==> Clearable(old(now.staging)) && old(now.live) != Foreign && Storable(job))
      ensures Quiet() && ok ==> (now.staging == Absent <==> Clearable(old(now.live)))
      ensures Quiet() && ok && now.staging != Absent ==> !Clearable(now.staging)
      ensures !Clearable(old(now.staging)) ==>
                !ok && now.live == old(now.live) && now.content == old(now.content) && !Clearable(now.staging)
    {
      hide Wf, HoldsOld, Holds, NewGen, Clearable, Storable, Nlink;
      StartGood(now, NewGen(now, job));
      trace, st0, gen := [now], now, NewGen(now, job);
      ok := Run(job);
      if ok && now.staging == Absent {
        SingleLinks(now, gen);
      }
    }
  }

  lemma {:induction false} StartGood(st: State, gen: map<string, string>)
    requires Wf(st)
    ensures Good(st, st, gen)
  {
  }

  lemma {:induction false} NewGenIs(st0: State, job: Job)
    requires Wf(st0)
    ensures var g := Carried(st0, job.kt)[PrivName(job.kt) := job.key][ChainName(job.kt) := job.chain];
            NewGen(st0, job) ==
              if job.certbot && LeafLength(job.chain).Some? then
                var k := LeafLength(job.chain).value;
                g[LeafName(job.kt) := job.chain[..k]][RestName(job.kt) := job.chain[k..]]
              else g
  {
    hide Carried, LeafLength;
  }

  /** The files of an elliptic-curve pair and of an RSA pair. */
  const EC_FILES: seq<string> := ["privkey.pem", "fullchain.pem", "cert.pem", "chain.pem"]
  const RSA_FILES: seq<string> := ["privkey.rsa.pem", "fullchain.rsa.pem", "cert.rsa.pem", "chain.rsa.pem"]

  /**
   What stands where in a new generation: the key, the chain, and in the certbot
   layout the leaf and the rest, which together are the chain; and under the
   other key type's names what the live directory had there.
   */
  lemma {:induction false} NewGenFiles(st0: State, job: Job)
    requires Wf(st0) && Storable(job)
    ensures var g := NewGen(st0, job);
            var own, other := if job.kt.Rsa? then RSA_FILES else EC_FILES, if job.kt.Rsa? then EC_FILES else RSA_FILES;
            && own[0] in g && g[own[0]] == job.key && own[1] in g && g[own[1]] == job.chain
            && (if job.certbot then own[2] in g && own[3] in g && g[own[2]] + g[own[3]] == job.chain
                else own[2] !in g && own[3] !in g)
            && (forall n :: n in g ==> n in own || n in other)
            && forall n :: n in other ==>
                 (n in g <==> st0.live.Directory? && n in st0.live.names && st0.live.names[n].File?)
                 && (n in g ==> st0.live.names[n].ino in st0.content && g[n] == st0.content[st0.live.names[n].ino])
  {
    hide LeafLength, Own, IsOwn, IsOther, PrivName, ChainName, LeafName, RestName, STORE_FILES;
    OwnFiles(job);
    NamesApart(job.kt);
    NoSharing();
  }

  lemma {:induction false} NoSharing()
    ensures forall n :: n in EC_FILES ==> n !in RSA_FILES
  {
    DifferentLengths();
  }

  lemma {:induction false} OwnFiles(job: Job)
    requires Storable(job)
    ensures var own, o := if job.kt.Rsa? then RSA_FILES else EC_FILES, Own(job);
            && own[0] in o && o[own[0]] == job.key && own[1] in o && o[own[1]] == job.chain
            && (if job.certbot then own[2] in o && own[3] in o && o[own[2]] + o[own[3]] == job.chain
                else own[2] !in o && own[3] !in o)
            && forall n :: n in o ==> n in own
  {
    hide LeafLength;
    if job.certbot {
      var k := LeafLength(job.chain).value;
      assert job.chain[..k] + job.chain[k..] == job.chain;
    }
    DifferentLengths();
  }

  lemma {:induction false} DifferentLengths()
    ensures forall i, j :: 0 <= i < j < 4 ==> EC_FILES[i] != EC_FILES[j] && RSA_FILES[i] != RSA_FILES[j]
    ensures forall i, j :: 0 <= i < 4 && 0 <= j < 4 ==> EC_FILES[i] != RSA_FILES[j]
  {
    assert |"privkey.pem"| == 11 && |"fullchain.pem"| == 13 && |"cert.pem"| == 8 && |"chain.pem"| == 9;
    assert |"privkey.rsa.pem"| == 15 && |"fullchain.rsa.pem"| == 17 && |"cert.rsa.pem"| == 12 && |"chain.rsa.pem"| == 13;
    assert "fullchain.pem"[0] != "chain.rsa.pem"[0];
  }

  /** The names of one key type are those the other must carry. */
  lemma {:induction false} NamesApart(kt: KeyType)
    ensures var own, other := if kt.Rsa? then RSA_FILES else EC_FILES, if kt.Rsa? then EC_FILES else RSA_FILES;
            forall n :: (IsOwn(kt, n) <==> n in own) && (IsOther(kt, n) <==> n in other)
  {
    DifferentLengths();
    assert STORE_FILES == EC_FILES + RSA_FILES;
    var own, other := if kt.Rsa? then RSA_FILES else EC_FILES, if kt.Rsa? then EC_FILES else RSA_FILES;
    forall n
      ensures IsOwn(kt, n) <==> n in own
    {
      assert own[0] == PrivName(kt) && own[1] == ChainName(kt) && own[2] == LeafName(kt) && own[3] == RestName(kt);
    }
  }

  /** The rename that publishes staging, by move or by exchange. */
  lemma {:induction false} PublishGood(st: State, st0: State, kt: KeyType, gen: map<string, string>, left: Entry)
    requires Wf(st0) && Good(st, st0, gen) && HoldsOld(st, st0) && Staged(st, st0, kt)
    requires Holds(st.staging, st.content, gen) && (left == Absent || left == st.live)
    ensures Good(st.(live := st.staging, staging := left), st0, gen)
  {
  }

  /** With staging gone, every file of the live directory has exactly one link. */
  lemma {:induction false} SingleLinks(st: State, gen: map<string, string>)
    requires Wf(st) && Holds(st.live, st.content, gen) && !st.staging.Directory?
    ensures forall n :: n in gen ==> Nlink(st, st.live.names[n].ino) == 1
  {
    forall n | n in gen
      ensures Nlink(st, st.live.names[n].ino) == 1
    {
      assert Links(st.live, st.live.names[n].ino) == {n};
    }
  }

  /** A live file that a store for `kt` must carry forward. */
  predicate Seeded(st0: State, kt: KeyType, name: string) {
    st0.live.Directory? && IsOther(kt, name) && name in st0.live.names && st0.live.names[name].File?
  }

  /** The disk after a live file was linked into staging. */
  function Linked(st: State, name: string, node: Node): State
    requires st.staging.Directory?
  {
    st.(staging := Directory(st.staging.names[name := node]))
  }

  lemma {:induction false} LinkedIs(st: State, name: string, node: Node)
    requires st.staging.Directory?
    ensures var st' := Linked(st, name, node);
            st'.live == st.live && st'.next == st.next && st'.staging == Directory(st.staging.names[name := node])
  {
  }

  lemma {:induction false} LinkGood(st: State, st0: State, gen: map<string, string>, name: string, kt: KeyType)
    requires Wf(st0) && Good(st, st0, gen) && HoldsOld(st, st0) && Staged(st, st0, kt) && Seeded(st0, kt, name)
    ensures var st' := Linked(st, name, st0.live.names[name]);
            Good(st', st0, gen) && HoldsOld(st', st0) && Staged(st', st0, kt)
  {
    hide Wf, Clearable, Seeded, Linked, HoldsOld, Staged, Holds;
    LinkWf(st, st0, name, kt);
    LinkClearable(st, st0, name, kt);
    LinkStages(st, st0, name, kt);
  }

  lemma {:induction false} LinkStages(st: State, st0: State, name: string, kt: KeyType)
    requires HoldsOld(st, st0) && Staged(st, st0, kt) && Seeded(st0, kt, name)
    ensures HoldsOld(Linked(st, name, st0.live.names[name]), st0) && Staged(Linked(st, name, st0.live.names[name]), st0, kt)
  {
  }

  lemma {:induction false} LinkWf(st: State, st0: State, name: string, kt: KeyType)
    requires Wf(st) && Wf(st0) && HoldsOld(st, st0) && Staged(st, st0, kt) && Seeded(st0, kt, name)
    ensures Wf(Linked(st, name, st0.live.names[name]))
  {
    hide HoldsOld, Staged, Seeded;
    HeldFile(st, st0, name, kt);
    forall n | n in st.staging.names && st.staging.names[n] == st0.live.names[name]
      ensures n == name
    {
      LinkedOnce(st, st0, name, kt, n);
    }
  }

  lemma {:induction false} HeldFile(st: State, st0: State, name: string, kt: KeyType)
    requires HoldsOld(st, st0) && Staged(st, st0, kt) && Seeded(st0, kt, name)
    ensures st.staging.Directory? && st0.live.Directory? && name in st0.live.names
    ensures st0.live.names[name].File? && st0.live.names[name].ino in st.content
  {
  }

  lemma {:induction false} LinkedOnce(st: State, st0: State, name: string, kt: KeyType, n: string)
    requires Wf(st0) && Staged(st, st0, kt) && Seeded(st0, kt, name)
    requires n in st.staging.names && st.staging.names[n] == st0.live.names[name]
    ensures n == name
  {
    hide IsOther, IsOwn;
  }

  lemma {:induction false} LinkClearable(st: State, st0: State, name: string, kt: KeyType)
    requires Staged(st, st0, kt) && Seeded(st0, kt, name)
    ensures Clearable(st.staging) ==> Clearable(Linked(st, name, st0.live.names[name]).staging)
    ensures Linked(st, name, st0.live.names[name]).live == st.live
  {
  }

  /** Staging while it is being seeded: links of the other key type only. */
  ghost predicate Seeding(st: State, st0: State, kt: KeyType) {
    && HoldsOld(st, st0) && Staged(st, st0, kt) && st0.live.Directory?
    && forall n :: n in st.staging.names ==> IsOther(kt, n)
  }

  lemma {:induction false} SeedingParts(st: State, st0: State, kt: KeyType)
    requires Seeding(st, st0, kt)
    ensures HoldsOld(st, st0) && Staged(st, st0, kt) && st.live == st0.live && st.live.Directory? && st.staging.Directory?
    ensures forall n :: n in st.staging.names ==> IsOther(kt, n)
  {
  }

  lemma {:induction false} SeedingMade(st: State, st0: State, kt: KeyType)
    requires HoldsOld(st, st0) && Staged(st, st0, kt) && st0.live.Directory?
    requires st.staging.Directory? ==> forall n :: n in st.staging.names ==> IsOther(kt, n)
    ensures Seeding(st, st0, kt)
  {
  }

  lemma {:induction false} SeedingStarts(st: State, st0: State, kt: KeyType)
    requires Wf(st0) && HoldsOld(st, st0) && st.staging == Directory(map[])
    ensures Staged(st, st0, kt)
    ensures if st.live.Directory? then Seeding(st, st0, kt) else Holds(st.staging, st.content, Carried(st0, kt))
  {
  }

  lemma {:induction false} OwnNotSeeded(st0: State, kt: KeyType, name: string)
    requires IsOwn(kt, name)
    ensures !Seeded(st0, kt, name)
  {
  }

  lemma {:induction false} StagedIs(st: State, st0: State, kt: KeyType)
    requires Staged(st, st0, kt)
    ensures st.staging.Directory?
  {
  }

  lemma {:induction false} LinkPre(st: State, st0: State, name: string, kt: KeyType)
    requires HoldsOld(st, st0) && IsOther(kt, name)
    requires st0.live.Directory? && name in st0.live.names && st0.live.names[name].File?
    ensures Seeded(st0, kt, name) && st.live == st0.live
  {
  }

  lemma {:induction false} SeededAll(st: State, st0: State, kt: KeyType)
    requires Wf(st0) && HoldsOld(st, st0) && Staged(st, st0, kt) && st0.live.Directory?
    requires forall n :: n in st.staging.names ==> IsOther(kt, n)
    requires forall j :: 0 <= j < |STORE_FILES| && Seeded(st0, kt, STORE_FILES[j]) ==> STORE_FILES[j] in st.staging.names
    ensures Holds(st.staging, st.content, Carried(st0, kt))
  {
    var g := Carried(st0, kt);
    forall n
      ensures n in g <==> n in st.staging.names
    {
      if n in g {
        var j :| 0 <= j < |STORE_FILES| && STORE_FILES[j] == n;
        assert Seeded(st0, kt, STORE_FILES[j]);
      }
    }
  }

  /** A staged file of this key type has its staging name as its only link. */
  lemma {:induction false} OwnLink(st: State, st0: State, gen: map<string, string>, leaf: string, kt: KeyType)
    requires Wf(st0) && Good(st, st0, gen) && HoldsOld(st, st0) && Staged(st, st0, kt)
    requires IsOwn(kt, leaf) && leaf in st.staging.names
    ensures Nlink(st, st.staging.names[leaf].ino) == 1
  {
    var ino := st.staging.names[leaf].ino;
    assert Links(st.staging, ino) == {leaf};
    assert Links(st.live, ino) == {};
  }

  /** The disk after a new, empty file appeared in staging. */
  function Created(st: State, leaf: string): State
    requires st.staging.Directory?
  {
    st.(staging := Directory(st.staging.names[leaf := File(st.next)]), content := st.content[st.next := ""], next := st.next + 1)
  }

  lemma {:induction false} CreatedIs(st: State, leaf: string)
    requires st.staging.Directory?
    ensures var st' := Created(st, leaf);
            st'.staging == Directory(st.staging.names[leaf := File(st.next)]) && st'.next == st.next + 1
  {
  }

  lemma {:induction false} HeldText(st: State, g: map<string, string>)
    requires Holds(st.staging, st.content, g)
    ensures st.staging.names.Keys == g.Keys && forall n :: n in g ==> st.staging.names[n].File?
  {
  }

  lemma {:induction false} CreateWf(st: State, leaf: string)
    requires Wf(st) && st.staging.Directory? && leaf !in st.staging.names
    ensures Wf(Created(st, leaf))
  {
    assert st.next !in st.content;
  }

  lemma {:induction false} CreateHolds(st: State, st0: State, leaf: string, g: map<string, string>)
    requires Wf(st) && HoldsOld(st, st0) && leaf !in g && Holds(st.staging, st.content, g)
    ensures var st' := Created(st, leaf);
            HoldsOld(st', st0) && Holds(st'.staging, st'.content, g[leaf := ""])
  {
    assert st.next !in st.content;
    hide Wf;
  }

  lemma {:induction false} CreateGood(st: State, st0: State, gen: map<string, string>, leaf: string, kt: KeyType,
                                      g: map<string, string>)
    requires Good(st, st0, gen) && HoldsOld(st, st0) && Staged(st, st0, kt) && IsOwn(kt, leaf)
    requires st0.next <= st.next && leaf !in st.staging.names && Holds(st.staging, st.content, g)
    ensures var st' := Created(st, leaf);
            && Good(st', st0, gen) && HoldsOld(st', st0) && Staged(st', st0, kt)
            && Holds(st'.staging, st'.content, g[leaf := ""])
  {
    CreateWf(st, leaf);
    CreateHolds(st, st0, leaf, g);
    CreateStaged(st, st0, leaf, kt);
    CreateClearable(st, leaf, kt);
    hide Wf, HoldsOld, Holds, Staged, Clearable, IsOwn, Created;
  }

  lemma {:induction false} CreateStaged(st: State, st0: State, leaf: string, kt: KeyType)
    requires Staged(st, st0, kt) && IsOwn(kt, leaf) && st0.next <= st.next
    ensures Staged(Created(st, leaf), st0, kt)
  {
  }

  lemma {:induction false} CreateClearable(st: State, leaf: string, kt: KeyType)
    requires st.staging.Directory? && IsOwn(kt, leaf)
    ensures Clearable(st.staging) ==> Clearable(Created(st, leaf).staging)
    ensures Created(st, leaf).live == st.live
  {
  }

  lemma {:induction false} WriteGood(st: State, st0: State, gen: map<string, string>, leaf: string, kt: KeyType,
                                     text: string, g: map<string, string>, was: string)
    requires Wf(st0) && Good(st, st0, gen) && HoldsOld(st, st0) && Staged(st, st0, kt) && IsOwn(kt, leaf)
    requires leaf in st.staging.names && Holds(st.staging, st.content, g[leaf := was])
    ensures var st' := st.(content := st.content[st.staging.names[leaf].ino := text]);
            && Good(st', st0, gen) && HoldsOld(st', st0) && Staged(st', st0, kt)
            && Holds(st'.staging, st'.content, g[leaf := text])
  {
    var ino := st.staging.names[leaf].ino;
    RewriteOld(st, st0, ino, text);
    RewriteHolds(st, leaf, text, g, was);
    hide WfEntry, HoldsOld, Clearable, Holds;
  }

  /** Rewriting a file that did not exist when the store began leaves the old generation alone. */
  lemma {:induction false} RewriteOld(st: State, st0: State, ino: nat, text: string)
    requires Wf(st) && Wf(st0) && HoldsOld(st, st0) && ino in st.content && ino >= st0.next
    ensures var st' := st.(content := st.content[ino := text]); Wf(st') && HoldsOld(st', st0)
  {
  }

  lemma {:induction false} RewriteHolds(st: State, leaf: string, text: string, g: map<string, string>, was: string)
    requires WfEntry(st.staging, st.content) && Holds(st.staging, st.content, g[leaf := was])
    ensures Holds(st.staging, st.content[st.staging.names[leaf].ino := text], g[leaf := text])
  {
  }

  /** Dropping a staged name, or failing to, leaves a staged directory. */
  lemma {:induction false} UnstageGood(st: State, st': State, st0: State, kt: KeyType)
    requires HoldsOld(st, st0) && Staged(st, st0, kt)
    requires st'.live == st.live && st'.content == st.content
    requires st'.staging.Directory? && forall n :: n in st'.staging.names ==> n in st.staging.names && st'.staging.names[n] == st.staging.names[n]
    ensures HoldsOld(st', st0) && Staged(st', st0, kt)
  {
  }

  /** Staging may lose names, disappear, or start out empty, at any time. */
  lemma {:induction false} ReplaceGood(st: State, st0: State, gen: map<string, string>, e: Entry)
    requires Good(st, st0, gen)
    requires e.Directory? ==> forall n :: n in e.names ==> st.staging.Directory? && n in st.staging.names && e.names[n] == st.staging.names[n]
    ensures Good(st.(staging := e), st0, gen)
  {
  }

  // ----------------------------------------------------- crash and recovery

  /**
   A store dies after any number of its steps, or runs to any end. A later
   store that meets no fault clears what was left behind and commits. The one
   hypothesis is that the directories held only listed names to begin with.
   */
  method CrashThenStore(start: State, faults: nat -> bool, first: Job, steps: nat, second: Job)
    returns (crashed: State, ok: bool, end: State)
    requires Wf(start) && Clearable(start.live) && Clearable(start.staging)
    requires start.live != Foreign && Storable(second)
    ensures Wf(crashed)
    ensures HoldsOld(crashed, start) || Holds(crashed.live, crashed.content, NewGen(start, first))
    ensures ok && end.staging == Absent
    ensures Holds(end.live, end.content, NewGen(crashed, second))
    ensures forall n :: n in NewGen(crashed, second) ==> Nlink(end, end.live.names[n].ino) == 1
  {
    var d := new Disk(start, faults);
    var _ := d.Store(first);
    crashed := d.StateAt(steps);
    hide Wf, HoldsOld, NewGen, Clearable;
    var e := new Disk(crashed, _ => false);
    ok := e.Store(second);
    end := e.now;
  }

  /** A staging directory that cannot be cleared fails every later store, faults or not, and the live directory stays for ever. */
  method StuckStores(start: State, later: seq<Job>, faults: nat -> nat -> bool) returns (oks: seq<bool>, end: State)
    requires Wf(start) && !Clearable(start.staging)
    ensures |oks| == |later| && forall i :: 0 <= i < |oks| ==> !oks[i]
    ensures end.live == start.live && end.content == start.content && !Clearable(end.staging)
  {
    hide HoldsOld, NewGen, Clearable, Wf;
    oks, end := [], start;
    for i := 0 to |later|
      invariant |oks| == i && forall k :: 0 <= k < i ==> !oks[k]
      invariant Wf(end) && !Clearable(end.staging) && end.live == start.live && end.content == start.content
    {
      var d := new Disk(end, faults(i));
      var ok := d.Store(later[i]);
      assert d.now == d.trace[|d.trace| - 1];
      oks, end := oks + [ok], d.now;
    }
  }

  /** With listed names only and no faults, every later store succeeds. */
  method FreeStores(start: State, later: seq<Job>) returns (oks: seq<bool>, end: State)
    requires Wf(start) && Clearable(start.live) && start.live.Directory? && start.staging == Absent
    requires forall i :: 0 <= i < |later| ==> Storable(later[i])
    ensures |oks| == |later| && forall i :: 0 <= i < |oks| ==> oks[i]
  {
    hide HoldsOld, NewGen, Wf, Storable;
    oks, end := [], start;
    for i := 0 to |later|
      invariant |oks| == i && forall k :: 0 <= k < i ==> oks[k]
      invariant Wf(end) && Clearable(end.live) && end.live.Directory? && end.staging == Absent
    {
      assert Storable(later[i]);
      var d := new Disk(end, _ => false);
      var ok := d.Store(later[i]);
      assert d.now == d.trace[|d.trace| - 1];
      oks, end := oks + [ok], d.now;
    }
  }

  /**
   A renewal and any number of further ones, all without faults: the first
   always commits; the others succeed exactly when the directory the first one
   replaced held only listed names. Otherwise the first leaves a staging
   directory that no later store can remove, and its certificate is the last.
   */
  method Renewals(start: State, first: Job, later: seq<Job>) returns (ok1: bool, oks: seq<bool>, end: State)
    requires Wf(start) && start.live.Directory? && start.staging == Absent
    requires Storable(first) && forall i :: 0 <= i < |later| ==> Storable(later[i])
    ensures ok1 && |oks| == |later| && forall i :: 0 <= i < |oks| ==> (oks[i] <==> Clearable(start.live))
    ensures !Clearable(start.live) ==> Holds(end.live, end.content, NewGen(start, first))
  {
    var d := new Disk(start, _ => false);
    ok1 := d.Store(first);
    assert d.now == d.trace[|d.trace| - 1];
    if d.now.staging == Absent {
      HoldsDirectory(d.now, NewGen(start, first));
      hide Wf, HoldsOld, NewGen;
      oks, end := FreeStores(d.now, later);
    } else {
      hide Wf, HoldsOld, NewGen, Clearable, Holds;
      oks, end := StuckStores(d.now, later, _ => _ => false);
    }
  }

  lemma {:induction false} HoldsDirectory(st: State, gen: map<string, string>)
    requires Holds(st.live, st.content, gen)
    ensures st.live.Directory?
  {
  }

  const RUNTIME_MARKER := ".autocert-runtime"

  /** The marker the driver drops beside a runtime certificate is an unlisted name. */
  lemma {:induction false} MarkerUnlisted(live: Entry)
    requires live.Directory? && RUNTIME_MARKER in live.names
    ensures !Clearable(live)
  {
    forall i | 0 <= i < |STORE_FILES|
      ensures STORE_FILES[i] != RUNTIME_MARKER
    {
      assert STORE_FILES[i][0] != RUNTIME_MARKER[0];
    }
  }

  /** With the marker in the live directory one renewal commits, and it is the last: all later ones fail. */
  method MarkerBlocksRenewal(start: State, first: Job, later: seq<Job>) returns (ok1: bool, oks: seq<bool>, end: State)
    requires Wf(start) && start.live.Directory? && start.staging == Absent && RUNTIME_MARKER in start.live.names
    requires Storable(first) && forall i :: 0 <= i < |later| ==> Storable(later[i])
    ensures ok1 && |oks| == |later| && forall i :: 0 <= i < |oks| ==> !oks[i]
    ensures Holds(end.live, end.content, NewGen(start, first))
  {
    MarkerUnlisted(start.live);
    hide Wf, Holds, NewGen, Clearable, Storable;
    ok1, oks, end := Renewals(start, first, later);
  }
}
