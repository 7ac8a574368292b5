/**
 The encrypted vault under concurrent processes. Each step of a process is one statement, one file
 operation or one commit; between steps any other process may run. Key derivation and encryption
 are symbolic: a key is a passphrase with a salt, a sealed blob opens under the key that sealed it
 and under no other.
 */
module Secrets {
  import opened Collections

  type Salt = seq<int>

  datatype Key = Key(passphrase: string, salt: Salt)

  type Vault = map<string, string>

  /** Empty bytes, an encrypted vault, or bytes no key opens. */
  datatype Blob = Empty | Sealed(key: Key, vault: Vault) | Garbage

  datatype Row = Row(salt: Salt, blob: Option<Blob>)

  /** What is in a legacy salt file: None when it does not decode. */
  datatype SaltFile = SaltFile(decoded: Option<Salt>)

  datatype Files = Files(salt: Option<SaltFile>, enc: Option<Blob>)

  /** The row as it was inserted, and whether its salt was read from the legacy file. */
  datatype Birth = Birth(row: Row, fromFile: bool)

  datatype Op = SetSecret(name: string, value: string) | GetSecret(name: string) | ListSecrets | DeleteSecret(name: string)

  datatype Result = Done | Value(value: Option<string>) | Names(names: set<string>) | Deleted(existed: bool)
                  | InvalidPassphrase

  /** Where a process is between two steps. */
  datatype Pc =
    | CheckRow
    | SeekSalt
    | SeekEnc
    | ReadSalt
    | ReadEnc(salt: Salt, fromFile: bool)
    | Import(salt: Salt, fromFile: bool, blob: Option<Blob>)
    | RenameSalt
    | RenameEnc
    | SelectSalt
    | CreateSalt
    | ReselectSalt
    | BeginImmediate(key: Key)
    | ReadInTransaction(key: Key)
    | Commit(key: Key, vault: Vault)
    | PlainRead(key: Key)
    | Answering(result: Result)
    | Finished(result: Result)
    | Crashed

  datatype Process = Process(op: Op, passphrase: string, pc: Pc)

  /** One operation at the moment it took effect, with its answer. */
  datatype Entry = Entry(pid: nat, op: Op, passphrase: string, result: Result)

  /**
   The database row, the legacy files, who holds the write lock, and the processes; `legacy` keeps
   the files as they were at the start, `birth` the row as it was inserted, `log` the operations in
   the order they took effect.
   */
  datatype System = System(row: Option<Row>, files: Files, writer: Option<nat>, procs: map<nat, Process>,
                           legacy: Files, birth: Option<Birth>, log: seq<Entry>)

  // ---- what one process sees as a vault ----

  datatype Contents = Fresh | Locked(passphrase: string, vault: Vault) | Unreadable

  function ContentsOf(salt: Option<Salt>, blob: Option<Blob>): Contents {
    match blob
    case None => Fresh
    case Some(Empty) => Fresh
    case Some(Garbage) => Unreadable
    case Some(Sealed(key, vault)) => if salt == Some(key.salt) then Locked(key.passphrase, vault) else Unreadable
  }

  /** A salt file counts when it decodes to something non-empty. */
  function UsableSalt(files: Files): Option<Salt> {
    if files.salt.Some? && files.salt.value.decoded.Some? && files.salt.value.decoded.value != []
    then files.salt.value.decoded else None
  }

  function LegacyContents(files: Files): Contents {
    ContentsOf(UsableSalt(files), files.enc)
  }

  function CurrentContents(s: System): Contents {
    if s.row.Some? then ContentsOf(Some(s.row.value.salt), s.row.value.blob) else LegacyContents(s.legacy)
  }

  /** What the operations start from: the row as it was inserted, and before that the legacy files. */
  function Base(s: System): Contents {
    if s.birth.Some? then ContentsOf(Some(s.birth.value.row.salt), s.birth.value.row.blob) else LegacyContents(s.legacy)
  }

  /** The legacy blob opens with the legacy salt. */
  predicate SealedUnderSalt(files: Files) {
    files.enc.Some? && files.enc.value.Sealed? && UsableSalt(files) == Some(files.enc.value.key.salt)
  }

  /** `_decrypt_vault` */
  function Decrypt(key: Key, blob: Option<Blob>): Option<Vault> {
    match blob
    case None => Some(map[])
    case Some(Empty) => Some(map[])
    case Some(Garbage) => None
    case Some(Sealed(k, vault)) => if k == key then Some(vault) else None
  }

  function Open(c: Contents, passphrase: string): Option<Vault> {
    match c
    case Fresh => Some(map[])
    case Locked(p, vault) => if p == passphrase then Some(vault) else None
    case Unreadable => None
  }

  // ---- the specification: operations one after another ----

  function Answer(op: Op, vault: Vault): Result {
    match op
    case SetSecret(_, _) => Done
    case GetSecret(name) => Value(if name in vault then Some(vault[name]) else None)
    case ListSecrets => Names(vault.Keys)
    case DeleteSecret(name) => Deleted(name in vault)
  }

  function Changed(op: Op, vault: Vault): Vault {
    match op
    case SetSecret(name, value) => vault[name := value]
    case DeleteSecret(name) => vault - {name}
    case _ => vault
  }

  predicate Writes(op: Op, vault: Vault) {
    op.SetSecret? || (op.DeleteSecret? && op.name in vault)
  }

  function Apply(c: Contents, op: Op, passphrase: string): (Contents, Result) {
    match Open(c, passphrase)
    case None => (c, InvalidPassphrase)
    case Some(vault) =>
      (if Writes(op, vault) then Locked(passphrase, Changed(op, vault)) else c, Answer(op, vault))
  }

  ghost function Replay(c: Contents, log: seq<Entry>): Contents {
    if log == [] then c
    else
      var last := log[|log| - 1];
      Apply(Replay(c, log[..|log| - 1]), last.op, last.passphrase).0
  }

  /** Every logged answer is the one the operation gives after those logged before it. */
  ghost predicate Explained(c: Contents, log: seq<Entry>) {
    forall i :: 0 <= i < |log| ==> log[i].result == Apply(Replay(c, log[..i]), log[i].op, log[i].passphrase).1
  }

  // ---- steps ----

  /**
   What a step may draw on from outside: the bytes `os.urandom` gives, and whether a file
   operation goes wrong.
   */
  datatype Chance = Chance(random: Salt, fails: bool)

  datatype Action = Start(pid: nat, op: Op, passphrase: string) | Move(pid: nat, chance: Chance) | Crash(pid: nat)

  function Goto(s: System, pid: nat, pc: Pc): System
    requires pid in s.procs
  {
    s.(procs := s.procs[pid := s.procs[pid].(pc := pc)])
  }

  /** The operation takes effect and its answer is fixed. */
  function TakeEffect(s: System, pid: nat, result: Result): System
    requires pid in s.procs
  {
    var p := s.procs[pid];
    Goto(s, pid, Answering(result)).(log := s.log + [Entry(pid, p.op, p.passphrase, result)])
  }

  /** Random bytes differ from the salt an existing legacy blob was sealed with. */
  predicate FreshFor(salt: Salt, files: Files) {
    match files.enc
    case Some(Sealed(key, _)) => salt != key.salt
    case _ => true
  }

  function KeyFor(s: System, pid: nat, salt: Salt): Key
    requires pid in s.procs
  {
    Key(s.procs[pid].passphrase, salt)
  }

  /** Get and list read once; set and delete go through a write transaction. */
  function AfterKey(s: System, pid: nat, salt: Salt): System
    requires pid in s.procs
  {
    var key := KeyFor(s, pid, salt);
    Goto(s, pid, if s.procs[pid].op.GetSecret? || s.procs[pid].op.ListSecrets? then PlainRead(key) else BeginImmediate(key))
  }

  function Insert(s: System, salt: Salt, fromFile: bool, blob: Option<Blob>): System {
    if s.row.Some? then s else s.(row := Some(Row(salt, blob)), birth := Some(Birth(Row(salt, blob), fromFile)))
  }

  /** `_import_legacy_files` */
  function ImportStep(s: System, pid: nat, chance: Chance): System
    requires pid in s.procs
  {
    match s.procs[pid].pc
    case CheckRow => Goto(s, pid, if s.row.Some? then SelectSalt else SeekSalt)
    case SeekSalt => Goto(s, pid, if s.files.salt.Some? then ReadSalt else SeekEnc)
    case SeekEnc => Goto(s, pid, if s.files.enc.Some? then ReadSalt else SelectSalt)
    case ReadSalt =>
      if UsableSalt(s.files).Some? && !chance.fails then Goto(s, pid, ReadEnc(UsableSalt(s.files).value, true))
      else if FreshFor(chance.random, s.legacy) then Goto(s, pid, ReadEnc(chance.random, false))
      else s
    case ReadEnc(salt, fromFile) =>
      Goto(s, pid, if chance.fails then Crashed else Import(salt, fromFile, s.files.enc))
    case Import(salt, fromFile, blob) =>
      if s.writer.Some? then s else Goto(Insert(s, salt, fromFile, blob), pid, RenameSalt)
    case RenameSalt =>
      Goto(if chance.fails then s else s.(files := s.files.(salt := None)), pid, RenameEnc)
    case RenameEnc =>
      Goto(if chance.fails then s else s.(files := s.files.(enc := None)), pid, SelectSalt)
    case _ => s
  }

  /** `_get_or_create_salt` */
  function SaltStep(s: System, pid: nat, chance: Chance): System
    requires pid in s.procs
  {
    match s.procs[pid].pc
    case SelectSalt =>
      if s.row.Some? then AfterKey(s, pid, s.row.value.salt) else Goto(s, pid, CreateSalt)
    case CreateSalt =>
      if s.writer.Some? then s else Goto(Insert(s, chance.random, false, None), pid, ReselectSalt)
    case ReselectSalt =>
      if s.row.Some? then AfterKey(s, pid, s.row.value.salt) else Goto(s, pid, Crashed)
    case _ => s
  }

  /** The transaction of a write, or the one read of the other operations. */
  function VaultStep(s: System, pid: nat): System
    requires pid in s.procs
  {
    match s.procs[pid].pc
    case BeginImmediate(key) =>
      if s.writer.Some? then s else Goto(s, pid, ReadInTransaction(key)).(writer := Some(pid))
    case ReadInTransaction(key) =>
      (match Decrypt(key, if s.row.Some? then s.row.value.blob else None)
       case None => TakeEffect(s, pid, InvalidPassphrase).(writer := None)
       case Some(vault) =>
         if Writes(s.procs[pid].op, vault) then Goto(s, pid, Commit(key, vault))
         else TakeEffect(s, pid, Answer(s.procs[pid].op, vault)).(writer := None))
    case Commit(key, vault) =>
      var row := if s.row.Some? then Some(s.row.value.(blob := Some(Sealed(key, Changed(s.procs[pid].op, vault))))) else None;
      TakeEffect(s, pid, Answer(s.procs[pid].op, vault)).(row := row, writer := None)
    case PlainRead(key) =>
      (match Decrypt(key, if s.row.Some? then s.row.value.blob else None)
       case None => TakeEffect(s, pid, InvalidPassphrase)
       case Some(vault) => TakeEffect(s, pid, Answer(s.procs[pid].op, vault)))
    case Answering(result) => Goto(s, pid, Finished(result))
    case _ => s
  }

  predicate Importing(pc: Pc) {
    pc.CheckRow? || pc.SeekSalt? || pc.SeekEnc? || pc.ReadSalt? || pc.ReadEnc? || pc.Import? || pc.RenameSalt? || pc.RenameEnc?
  }

  predicate GettingSalt(pc: Pc) {
    pc.SelectSalt? || pc.CreateSalt? || pc.ReselectSalt?
  }

  function MoveProc(s: System, pid: nat, chance: Chance): System
    requires pid in s.procs
  {
    if Importing(s.procs[pid].pc) then ImportStep(s, pid, chance)
    else if GettingSalt(s.procs[pid].pc) then SaltStep(s, pid, chance)
    else VaultStep(s, pid)
  }

  function Step(s: System, a: Action): System {
    match a
    case Start(pid, op, passphrase) =>
      if pid in s.procs then s else s.(procs := s.procs[pid := Process(op, passphrase, CheckRow)])
    case Move(pid, chance) =>
      if pid in s.procs then MoveProc(s, pid, chance) else s
    case Crash(pid) =>
      if pid in s.procs && !s.procs[pid].pc.Finished?
      then Goto(s, pid, Crashed).(writer := if s.writer == Some(pid) then None else s.writer)
      else s
  }

  function Initial(files: Files): System {
    System(None, files, None, map[], files, None, [])
  }

  ghost function Run(s: System, actions: seq<Action>): System
    decreases |actions|
  {
    if actions == [] then s else Run(Step(s, actions[0]), actions[1..])
  }

  // ---- the invariant ----

  /** The salt a process is about to import is the legacy one, or cannot be mistaken for it. */
  predicate SaltOk(salt: Salt, fromFile: bool, files: Files) {
    if fromFile then UsableSalt(files) == Some(salt) else FreshFor(salt, files)
  }

  predicate InTransaction(pc: Pc) {
    pc.ReadInTransaction? || pc.Commit?
  }

  predicate KeyOk(s: System, p: Process, key: Key) {
    s.row.Some? && key == Key(p.passphrase, s.row.value.salt)
  }

  ghost predicate ProcessOk(s: System, pid: nat)
    requires pid in s.procs
  {
    var p := s.procs[pid];
    && (InTransaction(p.pc) <==> s.writer == Some(pid))
    && match p.pc
       case SeekEnc => s.row.None? ==> s.legacy.salt.None?
       case ReadEnc(salt, fromFile) => s.row.None? ==> SaltOk(salt, fromFile, s.legacy)
       case Import(salt, fromFile, blob) => s.row.None? ==> SaltOk(salt, fromFile, s.legacy) && blob == s.legacy.enc
       case RenameSalt => s.row.Some?
       case RenameEnc => s.row.Some?
       case SelectSalt => s.row.None? ==> s.legacy.salt.None? && s.legacy.enc.None?
       case CreateSalt => s.row.None? ==> s.legacy.salt.None? && s.legacy.enc.None?
       case ReselectSalt => s.row.Some?
       case BeginImmediate(key) => KeyOk(s, p, key) && (p.op.SetSecret? || p.op.DeleteSecret?)
       case ReadInTransaction(key) => KeyOk(s, p, key) && (p.op.SetSecret? || p.op.DeleteSecret?)
       case Commit(key, vault) =>
         KeyOk(s, p, key) && Open(CurrentContents(s), p.passphrase) == Some(vault) && Writes(p.op, vault)
       case PlainRead(key) => KeyOk(s, p, key) && (p.op.GetSecret? || p.op.ListSecrets?)
       case _ => true
  }

  /** How often a process has taken effect, and with which answer, by where it is. */
  ghost predicate LoggedOnce(s: System, pid: nat)
    requires pid in s.procs
  {
    var p := s.procs[pid];
    && (forall i, j :: 0 <= i < j < |s.log| && s.log[i].pid == pid ==> s.log[j].pid != pid)
    && (p.pc.Answering? || p.pc.Finished? ==> Entry(pid, p.op, p.passphrase, p.pc.result) in s.log)
    && (!p.pc.Answering? && !p.pc.Finished? && !p.pc.Crashed? ==> forall e :: e in s.log ==> e.pid != pid)
  }

  predicate BirthOk(birth: Birth, legacy: Files) {
    birth.row.blob == legacy.enc && SaltOk(birth.row.salt, birth.fromFile, legacy)
  }

  ghost predicate Inv(s: System) {
    && (s.row.None? ==> s.files == s.legacy && s.birth.None? && s.log == [])
    && (s.row.Some? ==> s.birth.Some? && s.row.value.salt == s.birth.value.row.salt && BirthOk(s.birth.value, s.legacy))
    && (s.writer.Some? ==> s.writer.value in s.procs)
    && (forall pid :: pid in s.procs ==> ProcessOk(s, pid))
    && (forall pid :: pid in s.procs ==> LoggedOnce(s, pid))
    && (forall e :: e in s.log ==> e.pid in s.procs)
    && CurrentContents(s) == Replay(Base(s), s.log)
    && Explained(Base(s), s.log)
  }

  // ---- lemmas ----

  lemma ReplayAppend(c: Contents, log: seq<Entry>, e: Entry)
    ensures Replay(c, log + [e]) == Apply(Replay(c, log), e.op, e.passphrase).0
    ensures Explained(c, log) && e.result == Apply(Replay(c, log), e.op, e.passphrase).1 ==> Explained(c, log + [e])
  {
    var all := log + [e];
    assert all[..|log|] == log;
    if Explained(c, log) && e.result == Apply(Replay(c, log), e.op, e.passphrase).1 {
      forall i | 0 <= i < |all| ensures all[i].result == Apply(Replay(c, all[..i]), all[i].op, all[i].passphrase).1 {
        if i < |log| {
          assert all[..i] == log[..i];
        }
      }
    }
  }

  /** With the row's own salt, decrypting is opening. */
  lemma DecryptOpens(row: Row, passphrase: string)
    ensures Decrypt(Key(passphrase, row.salt), row.blob) == Open(ContentsOf(Some(row.salt), row.blob), passphrase)
  {
  }

  /** No other process moves. */
  ghost predicate OthersSame(s: System, t: System, pid: nat) {
    pid in s.procs && t.procs.Keys == s.procs.Keys && forall q :: q in s.procs && q != pid ==> t.procs[q] == s.procs[q]
  }

  /** The lock is as it was, or this process took it or gave it back. */
  predicate LockMoved(s: System, t: System, pid: nat) {
    t.writer == s.writer || (s.writer == Some(pid) && t.writer.None?) || (s.writer.None? && t.writer == Some(pid))
  }

  /** Logging one entry for a process that had none. */
  lemma LogGrows(s: System, t: System, pid: nat, e: Entry)
    requires Inv(s) && OthersSame(s, t, pid)
    requires t.log == s.log + [e] && e.pid == pid && (forall x :: x in s.log ==> x.pid != pid)
    requires t.procs[pid].op == e.op && t.procs[pid].passphrase == e.passphrase && t.procs[pid].pc == Answering(e.result)
    ensures forall q :: q in t.procs ==> LoggedOnce(t, q)
    ensures forall x :: x in t.log ==> x.pid in t.procs
  {
    hide ProcessOk, Replay, Explained, CurrentContents, LegacyContents, BirthOk;
    LogMembers(s.log, e);
    forall q | q in t.procs ensures LoggedOnce(t, q) {
      assert LoggedOnce(s, q);
      LogOfOne(s, t, q, e);
    }
  }

  lemma LogMembers(log: seq<Entry>, e: Entry)
    ensures forall x :: x in log + [e] <==> x in log || x == e
  {
    assert (log + [e])[|log|] == e;
  }

  lemma LogOfOne(s: System, t: System, q: nat, e: Entry)
    requires q in s.procs && q in t.procs && LoggedOnce(s, q) && t.log == s.log + [e]
    requires forall x :: x in s.log ==> x.pid != e.pid
    requires if q == e.pid then t.procs[q] == Process(e.op, e.passphrase, Answering(e.result)) else t.procs[q] == s.procs[q]
    ensures LoggedOnce(t, q)
  {
    LogMembers(s.log, e);
    forall i, j | 0 <= i < j < |t.log| && t.log[i].pid == q ensures t.log[j].pid != q {
      if j == |s.log| {
        assert s.log[i] in s.log;
      }
    }
  }

  /** The other processes' places are unaffected when row, legacy and their part of the lock are. */
  lemma OthersStay(s: System, t: System, pid: nat)
    requires Inv(s) && OthersSame(s, t, pid)
    requires t.row == s.row && t.legacy == s.legacy
    requires LockMoved(s, t, pid)
    ensures forall q :: q in s.procs && q != pid ==> ProcessOk(t, q)
  {
    hide Replay, Explained, LoggedOnce, LegacyContents;
    forall q | q in s.procs && q != pid ensures ProcessOk(t, q) {
      assert ProcessOk(s, q);
    }
  }

  /** A step that moves one process without taking effect or touching the row. */
  lemma QuietMove(s: System, t: System, pid: nat)
    requires Inv(s) && OthersSame(s, t, pid)
    requires t.row == s.row && t.legacy == s.legacy && t.birth == s.birth && t.log == s.log
    requires t.files == s.files || s.row.Some?
    requires LockMoved(s, t, pid)
    requires t.procs[pid].op == s.procs[pid].op && t.procs[pid].passphrase == s.procs[pid].passphrase
    requires ProcessOk(t, pid) && LoggedOnce(t, pid)
    ensures Inv(t)
  {
    hide Replay, Explained, ContentsOf, LegacyContents;
    OthersStay(s, t, pid);
    forall q | q in t.procs ensures LoggedOnce(t, q) {
      assert LoggedOnce(s, q);
    }
  }

  /** The entry's operation gives its answer and changes nothing. */
  predicate OnlyAnswers(c: Contents, e: Entry) {
    Apply(c, e.op, e.passphrase) == (c, e.result)
  }

  /** A step that only adds one entry to the log, for the process that moves. */
  ghost predicate OnlyLogs(s: System, t: System, pid: nat, e: Entry) {
    && t.row == s.row && t.legacy == s.legacy && t.birth == s.birth && t.files == s.files
    && (t.writer == s.writer || (s.writer == Some(pid) && t.writer.None?)) && t.writer != Some(pid)
    && t.log == s.log + [e] && e.pid == pid && pid in t.procs
    && t.procs[pid] == Process(e.op, e.passphrase, Answering(e.result))
  }

  /** An operation that takes effect without writing. */
  lemma EffectMove(s: System, t: System, pid: nat, e: Entry)
    requires Inv(s) && s.row.Some? && OthersSame(s, t, pid) && OnlyLogs(s, t, pid, e)
    requires forall x :: x in s.log ==> x.pid != pid
    requires OnlyAnswers(CurrentContents(s), e)
    ensures Inv(t)
  {
    hide Replay, Explained, ContentsOf, LegacyContents, LoggedOnce, Apply, BirthOk;
    ReplayAppend(Base(s), s.log, e);
    LogGrows(s, t, pid, e);
    OthersStay(s, t, pid);
    assert ProcessOk(t, pid);
    assert CurrentContents(t) == CurrentContents(s);
  }

  /** The first insert keeps what is stored exactly when its salt was read from the file, or nothing opens with that. */
  lemma InsertKeepsContentsIff(s: System, salt: Salt, fromFile: bool, blob: Option<Blob>)
    requires s.row.None? && SaltOk(salt, fromFile, s.legacy) && blob == s.legacy.enc
    ensures CurrentContents(Insert(s, salt, fromFile, blob)) == CurrentContents(s)
            <==> fromFile || !SealedUnderSalt(s.legacy)
  {
  }

  lemma InsertMove(s: System, pid: nat, salt: Salt, fromFile: bool, blob: Option<Blob>, next: Pc)
    requires Inv(s) && pid in s.procs && s.writer.None?
    requires s.row.None? ==> SaltOk(salt, fromFile, s.legacy) && blob == s.legacy.enc
    requires s.procs[pid].pc.Import? || s.procs[pid].pc.CreateSalt?
    requires next == RenameSalt || next == ReselectSalt
    ensures Inv(Goto(Insert(s, salt, fromFile, blob), pid, next))
  {
    var t := Goto(Insert(s, salt, fromFile, blob), pid, next);
    InsertBase(s, t);
    InsertPlaces(s, t, pid, salt, fromFile, blob, next);
    hide Replay, Explained, ContentsOf, LegacyContents, Base, CurrentContents, ProcessOk, LoggedOnce, SaltOk;
  }

  lemma InsertPlaces(s: System, t: System, pid: nat, salt: Salt, fromFile: bool, blob: Option<Blob>, next: Pc)
    requires Inv(s) && pid in s.procs && s.writer.None?
    requires s.procs[pid].pc.Import? || s.procs[pid].pc.CreateSalt?
    requires next == RenameSalt || next == ReselectSalt
    requires t == Goto(Insert(s, salt, fromFile, blob), pid, next)
    ensures forall q :: q in t.procs ==> ProcessOk(t, q) && LoggedOnce(t, q)
  {
    hide Replay, Explained, ContentsOf, LegacyContents, Base, CurrentContents, SaltOk, BirthOk, LoggedOnce;
    forall q | q in t.procs ensures ProcessOk(t, q) {
      hide ProcessOk;
      assert ProcessOk(s, q);
      if q != pid {
        InsertPlace(s, t, q);
      } else {
        InsertedPlace(t, pid);
      }
    }
    forall q | q in t.procs ensures LoggedOnce(t, q) {
      hide ProcessOk;
      assert LoggedOnce(s, q);
      LogUntouched(s, t, q);
    }
  }

  lemma InsertedPlace(t: System, pid: nat)
    requires pid in t.procs && t.writer.None? && t.row.Some? && (t.procs[pid].pc.RenameSalt? || t.procs[pid].pc.ReselectSalt?)
    ensures ProcessOk(t, pid)
  {
  }

  /** A process that has not taken effect, wherever else it goes, has not. */
  lemma LogUntouched(s: System, t: System, q: nat)
    requires q in s.procs && q in t.procs && t.log == s.log && LoggedOnce(s, q)
    requires t.procs[q] == s.procs[q]
          || (!s.procs[q].pc.Answering? && !s.procs[q].pc.Finished? && !s.procs[q].pc.Crashed?
              && !t.procs[q].pc.Answering? && !t.procs[q].pc.Finished?)
    ensures LoggedOnce(t, q)
  {
  }

  /** The others' places do not depend on a row they have not seen. */
  lemma InsertPlace(s: System, t: System, q: nat)
    requires q in s.procs && q in t.procs && t.procs[q] == s.procs[q] && ProcessOk(s, q)
    requires t.writer == s.writer && t.legacy == s.legacy && t.row.Some? && (s.row.Some? ==> t.row == s.row)
    ensures ProcessOk(t, q)
  {
    hide ContentsOf, LegacyContents, SaltOk;
  }

  /** Before the row there is no entry, so what is stored is what it starts from. */
  lemma InsertBase(s: System, t: System)
    requires Inv(s) && t.log == s.log && t.legacy == s.legacy
    requires if s.row.None? then t.birth.Some? && t.row == Some(t.birth.value.row)
             else t.row == s.row && t.birth == s.birth
    ensures CurrentContents(t) == Replay(Base(t), t.log) && Explained(Base(t), t.log)
  {
    hide ContentsOf, LegacyContents, ProcessOk, LoggedOnce;
  }

  /** A commit while the lock is held: nobody changed the row since it was read. */
  lemma CommitMove(s: System, pid: nat, chance: Chance)
    requires Inv(s) && pid in s.procs && s.procs[pid].pc.Commit?
    ensures Inv(MoveProc(s, pid, chance))
  {
    hide Replay, Explained, LegacyContents, BirthOk, Decrypt;
    var p, t := s.procs[pid], MoveProc(s, pid, chance);
    assert ProcessOk(s, pid) && LoggedOnce(s, pid);
    var vault := p.pc.vault;
    var e := Entry(pid, p.op, p.passphrase, Answer(p.op, vault));
    assert CurrentContents(t) == Locked(p.passphrase, Changed(p.op, vault));
    ReplayAppend(Base(s), s.log, e);
    LogGrows(s, t, pid, e);
    assert Base(t) == Base(s);
    CommitPlaces(s, t, pid);
    hide LoggedOnce, ProcessOk, Base, Apply, CurrentContents;
  }

  /** The writer was the only one in a transaction, and the salt stays. */
  lemma CommitPlaces(s: System, t: System, pid: nat)
    requires pid in s.procs && t.procs.Keys == s.procs.Keys && (forall q :: q in s.procs ==> ProcessOk(s, q))
    requires s.writer == Some(pid) && t.writer.None? && t.legacy == s.legacy
    requires s.row.Some? && t.row.Some? && t.row.value.salt == s.row.value.salt
    requires t.procs[pid].pc.Answering? && forall q :: q in s.procs && q != pid ==> t.procs[q] == s.procs[q]
    ensures forall q :: q in t.procs ==> ProcessOk(t, q)
  {
    hide ProcessOk;
    forall q | q in t.procs ensures ProcessOk(t, q) {
      CommitPlace(s, t, pid, q);
    }
  }

  lemma CommitPlace(s: System, t: System, pid: nat, q: nat)
    requires q in s.procs && q in t.procs && ProcessOk(s, q) && s.writer == Some(pid) && t.writer.None?
    requires s.row.Some? && t.row.Some? && t.row.value.salt == s.row.value.salt && t.legacy == s.legacy
    requires if q == pid then t.procs[q].pc.Answering? else t.procs[q] == s.procs[q]
    ensures ProcessOk(t, q)
  {
    hide ContentsOf, LegacyContents, SaltOk;
  }

  lemma ReadMove(s: System, pid: nat, chance: Chance)
    requires Inv(s) && pid in s.procs && (s.procs[pid].pc.ReadInTransaction? || s.procs[pid].pc.PlainRead?)
    ensures Inv(MoveProc(s, pid, chance))
  {
    hide Replay, Explained, Base, LegacyContents;
    var p, t := s.procs[pid], MoveProc(s, pid, chance);
    assert ProcessOk(s, pid) && LoggedOnce(s, pid);
    DecryptOpens(s.row.value, p.passphrase);
    var unlocked := Open(CurrentContents(s), p.passphrase);
    assert Decrypt(p.pc.key, s.row.value.blob) == unlocked;
    if unlocked.Some? && Writes(p.op, unlocked.value) {
      QuietMove(s, t, pid);
    } else {
      var result := Apply(CurrentContents(s), p.op, p.passphrase).1;
      hide Apply, Decrypt, Open, CurrentContents, Inv, ProcessOk;
      EffectMove(s, t, pid, Entry(pid, p.op, p.passphrase, result));
    }
  }

  /** A move to another place, nothing else changed. */
  lemma PlaceMove(s: System, pid: nat, pc: Pc)
    requires Inv(s) && pid in s.procs && !InTransaction(s.procs[pid].pc) && !InTransaction(pc)
    requires !s.procs[pid].pc.Answering? && !s.procs[pid].pc.Finished? && !s.procs[pid].pc.Crashed?
    requires !pc.Answering? && !pc.Finished? && ProcessOk(Goto(s, pid, pc), pid)
    ensures Inv(Goto(s, pid, pc))
  {
    hide Replay, Explained, Base, CurrentContents, BirthOk, ProcessOk;
    var t := Goto(s, pid, pc);
    assert LoggedOnce(s, pid);
    hide Inv;
    QuietMove(s, t, pid);
  }

  /** Looking for the row and the legacy files. */
  lemma SeekMove(s: System, pid: nat, chance: Chance)
    requires Inv(s) && pid in s.procs
    requires s.procs[pid].pc.CheckRow? || s.procs[pid].pc.SeekSalt? || s.procs[pid].pc.SeekEnc?
    ensures Inv(MoveProc(s, pid, chance))
  {
    hide Replay, Explained, Base, CurrentContents, BirthOk, Decrypt, Apply, LoggedOnce;
    assert ProcessOk(s, pid);
    PlaceMove(s, pid, MoveProc(s, pid, chance).procs[pid].pc);
  }

  /** Reading the legacy files, or failing to. */
  lemma FileMove(s: System, pid: nat, chance: Chance)
    requires Inv(s) && pid in s.procs && (s.procs[pid].pc.ReadSalt? || s.procs[pid].pc.ReadEnc?)
    ensures Inv(MoveProc(s, pid, chance))
  {
    hide Replay, Explained, Base, CurrentContents, BirthOk, Decrypt, Apply, LoggedOnce;
    assert ProcessOk(s, pid);
    if MoveProc(s, pid, chance) != s {
      PlaceMove(s, pid, MoveProc(s, pid, chance).procs[pid].pc);
    }
  }

  /** Renaming the legacy files, once the row exists. */
  lemma RenameMove(s: System, pid: nat, chance: Chance)
    requires Inv(s) && pid in s.procs && (s.procs[pid].pc.RenameSalt? || s.procs[pid].pc.RenameEnc?)
    ensures Inv(MoveProc(s, pid, chance))
  {
    hide Replay, Explained, Base, LegacyContents, CurrentContents, BirthOk, Decrypt, Apply, Open, SaltOk;
    assert ProcessOk(s, pid) && LoggedOnce(s, pid);
    QuietMove(s, MoveProc(s, pid, chance), pid);
  }

  /** Reading the salt. */
  lemma SaltMove(s: System, pid: nat, chance: Chance)
    requires Inv(s) && pid in s.procs && (s.procs[pid].pc.SelectSalt? || s.procs[pid].pc.ReselectSalt?)
    ensures Inv(MoveProc(s, pid, chance))
  {
    hide Replay, Explained, Base, CurrentContents, BirthOk, Decrypt, Apply, LoggedOnce;
    assert ProcessOk(s, pid);
    PlaceMove(s, pid, MoveProc(s, pid, chance).procs[pid].pc);
  }

  /** Taking the lock. */
  lemma LockMove(s: System, pid: nat, chance: Chance)
    requires Inv(s) && pid in s.procs && s.procs[pid].pc.BeginImmediate?
    ensures Inv(MoveProc(s, pid, chance))
  {
    hide Replay, Explained, Base, LegacyContents, CurrentContents, BirthOk, Decrypt, Apply, Open, SaltOk;
    assert ProcessOk(s, pid) && LoggedOnce(s, pid);
    var t := MoveProc(s, pid, chance);
    if t != s {
      assert t == Goto(s, pid, ReadInTransaction(s.procs[pid].pc.key)).(writer := Some(pid));
      LogUntouched(s, t, pid);
      assert ProcessOk(t, pid);
      hide MoveProc, Inv, ProcessOk, LoggedOnce;
      QuietMove(s, t, pid);
    }
  }

  /** Returning. */
  lemma ReturnMove(s: System, pid: nat, chance: Chance)
    requires Inv(s) && pid in s.procs
    requires s.procs[pid].pc.Answering? || s.procs[pid].pc.Finished? || s.procs[pid].pc.Crashed?
    ensures Inv(MoveProc(s, pid, chance))
  {
    hide Replay, Explained, Base, LegacyContents, CurrentContents, BirthOk, Decrypt, Apply, Open, SaltOk;
    assert ProcessOk(s, pid) && LoggedOnce(s, pid);
    var t := MoveProc(s, pid, chance);
    if t != s {
      assert t == Goto(s, pid, Finished(s.procs[pid].pc.result));
      assert ProcessOk(t, pid) && LoggedOnce(t, pid);
      hide MoveProc, Inv, ProcessOk, LoggedOnce;
      QuietMove(s, t, pid);
    }
  }

  lemma MoveKeepsInv(s: System, pid: nat, chance: Chance)
    requires Inv(s) && pid in s.procs
    ensures Inv(MoveProc(s, pid, chance))
  {
    assert ProcessOk(s, pid);
    hide Inv;
    match s.procs[pid].pc
    case Import(salt, fromFile, blob) =>
      if s.writer.None? {
        InsertMove(s, pid, salt, fromFile, blob, RenameSalt);
      }
    case CreateSalt =>
      if s.writer.None? {
        InsertMove(s, pid, chance.random, false, None, ReselectSalt);
      }
    case Commit(_, _) => CommitMove(s, pid, chance);
    case ReadInTransaction(_) => ReadMove(s, pid, chance);
    case PlainRead(_) => ReadMove(s, pid, chance);
    case RenameSalt => RenameMove(s, pid, chance);
    case RenameEnc => RenameMove(s, pid, chance);
    case SelectSalt => SaltMove(s, pid, chance);
    case ReselectSalt => SaltMove(s, pid, chance);
    case BeginImmediate(_) => LockMove(s, pid, chance);
    case Answering(_) => ReturnMove(s, pid, chance);
    case Finished(_) => ReturnMove(s, pid, chance);
    case Crashed => ReturnMove(s, pid, chance);
    case ReadSalt => FileMove(s, pid, chance);
    case ReadEnc(_, _) => FileMove(s, pid, chance);
    case _ => SeekMove(s, pid, chance);
  }

  lemma StepKeepsInv(s: System, a: Action)
    requires Inv(s)
    ensures Inv(Step(s, a))
  {
    hide Inv, MoveProc;
    match a
    case Start(pid, op, passphrase) =>
      StartKeepsInv(s, pid, op, passphrase);
    case Move(pid, chance) =>
      if pid in s.procs {
        MoveKeepsInv(s, pid, chance);
      }
    case Crash(pid) =>
      CrashKeepsInv(s, pid);
  }

  /** A crash rolls back: the lock is released and the row is as it was. */
  lemma CrashKeepsInv(s: System, pid: nat)
    requires Inv(s)
    ensures Inv(Step(s, Crash(pid)))
  {
    hide Replay, Explained, Base, LegacyContents, CurrentContents, BirthOk, Decrypt, Apply, Open, SaltOk;
    if pid in s.procs && !s.procs[pid].pc.Finished? {
      assert LoggedOnce(s, pid) && ProcessOk(s, pid);
      QuietMove(s, Step(s, Crash(pid)), pid);
    }
  }

  lemma StartKeepsInv(s: System, pid: nat, op: Op, passphrase: string)
    requires Inv(s)
    ensures Inv(Step(s, Start(pid, op, passphrase)))
  {
    hide Replay, Explained, ContentsOf, LegacyContents;
    var t := Step(s, Start(pid, op, passphrase));
    if pid !in s.procs {
      forall q | q in t.procs ensures ProcessOk(t, q) && LoggedOnce(t, q) {
        if q in s.procs {
          assert ProcessOk(s, q) && LoggedOnce(s, q);
        }
      }
    }
  }

  lemma {:induction false} RunKeepsInv(s: System, actions: seq<Action>)
    requires Inv(s)
    ensures Inv(Run(s, actions))
    decreases |actions|
  {
    if actions != [] {
      StepKeepsInv(s, actions[0]);
      RunKeepsInv(Step(s, actions[0]), actions[1..]);
    }
  }

  lemma InitialInv(files: Files)
    ensures Inv(Initial(files))
  {
  }

  // ---- main results, for every interleaving ----

  /** A process that could not read a usable salt created the row beside a blob that opens with it. */
  predicate SaltLost(s: System) {
    s.birth.Some? && !s.birth.value.fromFile && SealedUnderSalt(s.legacy)
  }

  /**
   No update is lost: the vault is what it started from with the logged operations applied in
   order, each logged answer is the one that order gives, and every finished process answered
   with the one entry it has in the log. It started from the legacy contents exactly when no
   usable salt was lost.
   */
  lemma Linearizable(files: Files, actions: seq<Action>)
    ensures var s := Run(Initial(files), actions);
            && CurrentContents(s) == Replay(Base(s), s.log)
            && Explained(Base(s), s.log)
            && (Base(s) == LegacyContents(files) <==> !SaltLost(s))
            && (forall pid :: pid in s.procs && s.procs[pid].pc.Finished? ==>
                  Entry(pid, s.procs[pid].op, s.procs[pid].passphrase, s.procs[pid].pc.result) in s.log)
            && (forall i, j :: 0 <= i < j < |s.log| ==> s.log[i].pid != s.log[j].pid)
  {
    InitialInv(files);
    RunKeepsInv(Initial(files), actions);
    LegacyConstant(Initial(files), actions);
    var s := Run(Initial(files), actions);
    BaseIsLegacyIff(s);
    hide Replay, Explained, CurrentContents, LegacyContents, Base, SaltLost, Run;
    forall pid | pid in s.procs && s.procs[pid].pc.Finished?
      ensures Entry(pid, s.procs[pid].op, s.procs[pid].passphrase, s.procs[pid].pc.result) in s.log
    {
      assert LoggedOnce(s, pid);
    }
    forall i, j | 0 <= i < j < |s.log| ensures s.log[i].pid != s.log[j].pid {
      assert s.log[i] in s.log;
      assert LoggedOnce(s, s.log[i].pid);
    }
  }

  lemma BaseIsLegacyIff(s: System)
    requires Inv(s)
    ensures Base(s) == LegacyContents(s.legacy) <==> !SaltLost(s)
  {
  }

  /** An operation that had finished before another started comes before it in the log. */
  lemma RealTimeOrder(files: Files, before: seq<Action>, after: seq<Action>, i: nat, j: nat)
    requires var s := Run(Initial(files), before);
             var t := Run(s, after);
             && i < |t.log| && j < |t.log| && t.log[j].pid !in s.procs
             && t.log[i].pid in s.procs && s.procs[t.log[i].pid].pc.Finished?
    ensures i < j
  {
    var s := Run(Initial(files), before);
    var t := Run(s, after);
    InitialInv(files);
    RunKeepsInv(Initial(files), before);
    RunKeepsInv(s, after);
    LogOnlyGrows(s, after);
    var p := t.log[i].pid;
    assert LoggedOnce(s, p);
    var k :| 0 <= k < |s.log| && s.log[k].pid == p;
    assert t.log[k] == s.log[k];
    assert LoggedOnce(t, p) by { assert t.log[i] in t.log; }
    assert i == k;
  }

  lemma {:induction false} LogOnlyGrows(s: System, actions: seq<Action>)
    ensures s.log <= Run(s, actions).log
    decreases |actions|
  {
    if actions != [] {
      LogOnlyGrows(Step(s, actions[0]), actions[1..]);
    }
  }

  // ---- answers, read off the log alone ----

  predicate Accepted(e: Entry) {
    e.result != InvalidPassphrase
  }

  predicate Sets(e: Entry, name: string) {
    Accepted(e) && e.op.SetSecret? && e.op.name == name
  }

  predicate Deletes(e: Entry, name: string) {
    Accepted(e) && e.op.DeleteSecret? && e.op.name == name
  }

  /** j is the last entry before i that set or deleted the name. */
  ghost predicate LastTouch(log: seq<Entry>, i: nat, name: string, j: nat) {
    && j < i <= |log| && (Sets(log[j], name) || Deletes(log[j], name))
    && forall k :: j < k < i ==> !Sets(log[k], name) && !Deletes(log[k], name)
  }

  ghost predicate Untouched(log: seq<Entry>, i: nat, name: string) {
    i <= |log| && forall k :: 0 <= k < i ==> !Sets(log[k], name) && !Deletes(log[k], name)
  }

  /** The name has the value: it was last set to it, or nothing touched it and it had it at the start. */
  ghost predicate Has(start: Vault, log: seq<Entry>, i: nat, name: string, value: string) {
    || (exists j: nat :: LastTouch(log, i, name, j) && log[j].op == SetSecret(name, value))
    || (Untouched(log, i, name) && name in start && start[name] == value)
  }

  /** It was last deleted, or nothing touched it and it was not there at the start. */
  ghost predicate Lacks(start: Vault, log: seq<Entry>, i: nat, name: string) {
    || (exists j: nat :: LastTouch(log, i, name, j) && log[j].op == DeleteSecret(name))
    || (Untouched(log, i, name) && name !in start)
  }

  /** The vault holds what the first i entries say. */
  ghost predicate Holds(start: Vault, log: seq<Entry>, i: nat, vault: Vault) {
    forall name :: if name in vault then Has(start, log, i, name, vault[name]) else Lacks(start, log, i, name)
  }

  function VaultIn(c: Contents): Vault {
    match c
    case Fresh => map[]
    case Locked(_, vault) => vault
    case Unreadable => map[]
  }

  /** One more entry: the name it sets or deletes has changed, all others have not. */
  lemma NextHolds(start: Vault, log: seq<Entry>, i: nat, vault: Vault, next: Vault)
    requires i < |log| && Holds(start, log, i, vault)
    requires forall name :: Sets(log[i], name) ==> name in next && next[name] == log[i].op.value
    requires forall name :: Deletes(log[i], name) ==> name !in next
    requires forall name :: !Sets(log[i], name) && !Deletes(log[i], name) ==>
               (name in next <==> name in vault) && (name in next ==> next[name] == vault[name])
    ensures Holds(start, log, i + 1, next)
  {
    forall name ensures if name in next then Has(start, log, i + 1, name, next[name]) else Lacks(start, log, i + 1, name) {
      if Sets(log[i], name) || Deletes(log[i], name) {
        assert LastTouch(log, i + 1, name, i);
      } else {
        TouchStays(log, i, name);
        assert if name in vault then Has(start, log, i, name, vault[name]) else Lacks(start, log, i, name);
      }
    }
  }

  lemma TouchStays(log: seq<Entry>, i: nat, name: string)
    requires i < |log| && !Sets(log[i], name) && !Deletes(log[i], name)
    ensures forall j :: LastTouch(log, i, name, j) ==> LastTouch(log, i + 1, name, j)
    ensures Untouched(log, i, name) ==> Untouched(log, i + 1, name)
  {
  }

  /** Whose passphrase opens the vault before entry i; None while any does. */
  ghost predicate OpensWith(base: Contents, log: seq<Entry>, i: nat, passphrase: string) {
    match base
    case Locked(p, _) => passphrase == p
    case Unreadable => false
    case Fresh => forall j :: 0 <= j < i <= |log| && Accepted(log[j]) && log[j].op.SetSecret? ==> log[j].passphrase == passphrase
  }

  /** The contents after i entries, as the log tells them. */
  ghost predicate Tells(base: Contents, log: seq<Entry>, i: nat, c: Contents) {
    && Holds(VaultIn(base), log, i, VaultIn(c))
    && (forall p :: Open(c, p).Some? <==> OpensWith(base, log, i, p))
    && (forall p :: Open(c, p).Some? ==> Open(c, p) == Some(VaultIn(c)))
  }

  lemma {:induction false} LogTells(base: Contents, log: seq<Entry>, i: nat)
    requires Explained(base, log) && i <= |log|
    ensures Tells(base, log, i, Replay(base, log[..i]))
  {
    if i == 0 {
      StartTells(base, log);
    } else {
      LogTells(base, log, i - 1);
      assert log[..i][..i - 1] == log[..i - 1];
      var e, c := log[i - 1], Replay(base, log[..i - 1]);
      assert e.result == Apply(c, e.op, e.passphrase).1;
      hide Explained, Replay;
      NextTells(base, log, i - 1, c);
    }
  }

  lemma StartTells(base: Contents, log: seq<Entry>)
    ensures Tells(base, log, 0, base)
  {
    assert forall name :: Untouched(log, 0, name);
  }

  lemma NextTells(base: Contents, log: seq<Entry>, i: nat, c: Contents)
    requires i < |log| && Tells(base, log, i, c) && log[i].result == Apply(c, log[i].op, log[i].passphrase).1
    ensures Tells(base, log, i + 1, Apply(c, log[i].op, log[i].passphrase).0)
  {
    var e := log[i];
    var next := Apply(c, e.op, e.passphrase).0;
    hide Holds, OpensWith;
    NextHolds(VaultIn(base), log, i, VaultIn(c), VaultIn(next));
    forall p ensures Open(next, p).Some? <==> OpensWith(base, log, i + 1, p) {
      NextOpens(base, log, i, c, p);
    }
  }

  lemma NextOpens(base: Contents, log: seq<Entry>, i: nat, c: Contents, p: string)
    requires i < |log| && log[i].result == Apply(c, log[i].op, log[i].passphrase).1
    requires forall q :: Open(c, q).Some? <==> OpensWith(base, log, i, q)
    ensures Open(Apply(c, log[i].op, log[i].passphrase).0, p).Some? <==> OpensWith(base, log, i + 1, p)
  {
    var e := log[i];
    assert Open(c, p).Some? <==> OpensWith(base, log, i, p);
    assert Open(c, e.passphrase).Some? <==> OpensWith(base, log, i, e.passphrase);
    assert Accepted(e) <==> Open(c, e.passphrase).Some?;
    assert OpensWith(base, log, i + 1, p) <==>
      OpensWith(base, log, i, p) && (base.Fresh? && Accepted(e) && e.op.SetSecret? ==> p == e.passphrase);
    if base.Fresh? && Accepted(e) && e.op.SetSecret? && p == e.passphrase {
      assert OpensWith(base, log, i, p);
    }
    if base.Locked? && Accepted(e) {
      assert base.passphrase == e.passphrase;
    }
  }

  /** What entry i answers, given what the entries before it say. */
  ghost predicate AnswersRight(base: Contents, log: seq<Entry>, i: nat)
    requires i < |log|
  {
    var e, start := log[i], VaultIn(base);
    && (Accepted(e) <==> OpensWith(base, log, i, e.passphrase))
    && (Accepted(e) ==>
          match e.op
          case SetSecret(_, _) => e.result == Done
          case GetSecret(name) =>
            e.result.Value? && if e.result.value.Some? then Has(start, log, i, name, e.result.value.value) else Lacks(start, log, i, name)
          case ListSecrets =>
            e.result.Names? && forall name :: if name in e.result.names then (exists v :: Has(start, log, i, name, v)) else Lacks(start, log, i, name)
          case DeleteSecret(name) =>
            e.result.Deleted? && if e.result.existed then (exists v :: Has(start, log, i, name, v)) else Lacks(start, log, i, name))
  }

  /**
   Over every run: an operation is refused exactly when its passphrase does not open the vault; an
   accepted get answers the value last set, nothing after a delete, and the starting value before
   either; list and delete answer likewise; and in the end the vault holds what the log says.
   */
  lemma AnswersFromLog(files: Files, actions: seq<Action>)
    ensures var s := Run(Initial(files), actions);
            && (forall i :: 0 <= i < |s.log| ==> AnswersRight(Base(s), s.log, i))
            && Holds(VaultIn(Base(s)), s.log, |s.log|, VaultIn(CurrentContents(s)))
  {
    Linearizable(files, actions);
    var s := Run(Initial(files), actions);
    hide Run, Base, CurrentContents, AnswersRight, Explained, Holds, Replay;
    forall i | 0 <= i < |s.log| ensures AnswersRight(Base(s), s.log, i) {
      EntryRight(Base(s), s.log, i);
    }
    LogTells(Base(s), s.log, |s.log|);
    assert s.log[..|s.log|] == s.log;
  }

  lemma EntryRight(base: Contents, log: seq<Entry>, i: nat)
    requires Explained(base, log) && i < |log|
    ensures AnswersRight(base, log, i)
  {
    var e, c := log[i], Replay(base, log[..i]);
    LogTells(base, log, i);
    assert e.result == Apply(c, e.op, e.passphrase).1;
    hide Explained, Replay, Has, Lacks, OpensWith;
    ContentsAnswer(base, log, i, c);
  }

  lemma ContentsAnswer(base: Contents, log: seq<Entry>, i: nat, c: Contents)
    requires i < |log| && Tells(base, log, i, c) && log[i].result == Apply(c, log[i].op, log[i].passphrase).1
    ensures AnswersRight(base, log, i)
  {
    hide Has, Lacks, OpensWith;
  }

  /** A name cannot both have a value and lack one, nor have two. */
  lemma HasOne(start: Vault, log: seq<Entry>, i: nat, name: string, v: string)
    requires Has(start, log, i, name, v)
    ensures !Lacks(start, log, i, name) && forall w :: Has(start, log, i, name, w) ==> w == v
  {
    assert forall j: nat, k: nat :: LastTouch(log, i, name, j) && LastTouch(log, i, name, k) ==> j == k;
    assert forall j: nat :: LastTouch(log, i, name, j) ==> !Untouched(log, i, name);
  }

  // ---- when the salt file cannot be read ----

  /** Then the vault is lost: whatever the passphrase, every operation is refused and nothing is stored. */
  lemma LostStaysLost(files: Files, actions: seq<Action>)
    requires SaltLost(Run(Initial(files), actions))
    ensures var s := Run(Initial(files), actions);
            CurrentContents(s) == Unreadable && forall e :: e in s.log ==> e.result == InvalidPassphrase
  {
    InitialInv(files);
    RunKeepsInv(Initial(files), actions);
    var s := Run(Initial(files), actions);
    LostBase(s);
    hide Inv, Run, Replay, Explained, CurrentContents, Base;
    NothingOpens(s.log);
    AllRefused(s.log);
  }

  lemma LostBase(s: System)
    requires Inv(s) && SaltLost(s)
    ensures CurrentContents(s) == Replay(Unreadable, s.log) && Explained(Unreadable, s.log)
  {
    hide Replay, Explained, ProcessOk, LoggedOnce, LegacyContents;
    assert Base(s) == Unreadable;
  }

  lemma AllRefused(log: seq<Entry>)
    requires Explained(Unreadable, log)
    ensures forall e :: e in log ==> e.result == InvalidPassphrase
  {
    hide Replay;
    forall i | 0 <= i < |log| ensures log[i].result == InvalidPassphrase {
      NothingOpens(log[..i]);
    }
  }

  lemma {:induction false} NothingOpens(log: seq<Entry>)
    ensures Replay(Unreadable, log) == Unreadable
  {
    if log != [] {
      NothingOpens(log[..|log| - 1]);
    }
  }

  /** One failing read of the salt file does this to any vault, with any other salt drawn. */
  lemma SaltReadFailureLosesVault(passphrase: string, salt: Salt, vault: Vault, drawn: Salt)
    requires salt != [] && drawn != salt
    ensures var files := Files(Some(SaltFile(Some(salt))), Some(Sealed(Key(passphrase, salt), vault)));
            && LegacyContents(files) == Locked(passphrase, vault)
            && SaltLost(Run(Initial(files), FailingRead(passphrase, drawn)))
  {
    var files := Files(Some(SaltFile(Some(salt))), Some(Sealed(Key(passphrase, salt), vault)));
    var a, s0 := FailingRead(passphrase, drawn), Initial(files);
    var proc := Process(ListSecrets, passphrase, CheckRow);
    var s1 := s0.(procs := map[0 := proc]);
    assert Step(s0, a[0]) == s1;
    var s3 := s0.(procs := map[0 := proc.(pc := ReadSalt)]);
    assert Step(Step(s1, a[1]), a[2]) == s3;
    var s5 := s0.(procs := map[0 := proc.(pc := Import(drawn, false, files.enc))]);
    assert Step(Step(s3, a[3]), a[4]) == s5;
    var row := Row(drawn, files.enc);
    assert Step(s5, a[5]) == s5.(procs := map[0 := proc.(pc := RenameSalt)], row := Some(row), birth := Some(Birth(row, false)));
    hide Step;
    SixSteps(s0, a);
  }

  /** Find the files, fail to read the salt, read the blob, insert. */
  function FailingRead(passphrase: string, drawn: Salt): seq<Action> {
    var ok, failing := Chance(drawn, false), Chance(drawn, true);
    [Start(0, ListSecrets, passphrase), Move(0, ok), Move(0, ok), Move(0, failing), Move(0, ok), Move(0, ok)]
  }

  lemma SixSteps(s: System, a: seq<Action>)
    requires |a| == 6
    ensures Run(s, a) == Step(Step(Step(Step(Step(Step(s, a[0]), a[1]), a[2]), a[3]), a[4]), a[5])
  {
    hide Step;
    ThreeSteps(s, a);
    ThreeSteps(Step(Step(Step(s, a[0]), a[1]), a[2]), a[3..]);
    assert a[3..][3..] == [];
  }

  lemma ThreeSteps(s: System, a: seq<Action>)
    requires |a| >= 3
    ensures Run(s, a) == Run(Step(Step(Step(s, a[0]), a[1]), a[2]), a[3..])
  {
    hide Step;
    assert a[1..][1..] == a[2..] && a[2..][1..] == a[3..];
  }

  /** Nobody who has not read it goes on without a usable salt. */
  ghost predicate Careful(s: System) {
    UsableSalt(s.legacy).Some? ==>
      && (s.row.None? ==> forall pid :: pid in s.procs ==> !ReadNothing(s.procs[pid].pc))
      && (s.birth.Some? ==> s.birth.value.fromFile)
  }

  predicate ReadNothing(pc: Pc) {
    (pc.ReadEnc? || pc.Import?) && !pc.fromFile
  }

  ghost predicate NothingFails(actions: seq<Action>) {
    forall a :: a in actions && a.Move? ==> !a.chance.fails
  }

  lemma CarefulStep(s: System, a: Action)
    requires Inv(s) && Careful(s) && (a.Move? ==> !a.chance.fails)
    ensures Careful(Step(s, a))
  {
    hide Inv, MoveProc;
    if a.Move? && a.pid in s.procs {
      CarefulMove(s, a.pid, a.chance);
    }
  }

  lemma CarefulMove(s: System, pid: nat, chance: Chance)
    requires Inv(s) && Careful(s) && pid in s.procs && !chance.fails
    ensures Careful(MoveProc(s, pid, chance))
  {
    assert ProcessOk(s, pid) && (s.row.None? ==> s.files == s.legacy);
    hide Inv, ProcessOk, Careful, ImportStep, SaltStep, VaultStep;
    if Importing(s.procs[pid].pc) {
      CarefulImport(s, pid, chance);
    } else if GettingSalt(s.procs[pid].pc) {
      CarefulSalt(s, pid, chance);
    } else {
      CarefulVault(s, pid);
    }
  }

  lemma CarefulImport(s: System, pid: nat, chance: Chance)
    requires Careful(s) && pid in s.procs && !chance.fails && (s.row.None? ==> s.files == s.legacy)
    ensures Careful(ImportStep(s, pid, chance))
  {
    hide FreshFor;
  }

  lemma CarefulSalt(s: System, pid: nat, chance: Chance)
    requires Careful(s) && pid in s.procs && ProcessOk(s, pid) && GettingSalt(s.procs[pid].pc)
    ensures Careful(SaltStep(s, pid, chance))
  {
  }

  lemma CarefulVault(s: System, pid: nat)
    requires Careful(s) && pid in s.procs
    ensures Careful(VaultStep(s, pid))
  {
    VaultKeepsBirth(s, pid);
    VaultMovesOne(s, pid);
    hide VaultStep, UsableSalt;
  }

  lemma VaultKeepsBirth(s: System, pid: nat)
    requires pid in s.procs
    ensures var t := VaultStep(s, pid); t.legacy == s.legacy && t.birth == s.birth && (t.row.None? <==> s.row.None?)
  {
    hide Decrypt, Answer, Changed, Writes;
  }

  lemma VaultMovesOne(s: System, pid: nat)
    requires pid in s.procs
    ensures var t := VaultStep(s, pid);
            && t.procs.Keys == s.procs.Keys && t.procs == s.procs[pid := t.procs[pid]]
            && (ReadNothing(t.procs[pid].pc) ==> t == s)
  {
    hide Decrypt, Answer, Changed, Writes;
    assert s.procs[pid := s.procs[pid]] == s.procs;
  }

  lemma {:induction false} CarefulRun(s: System, actions: seq<Action>)
    requires Inv(s) && Careful(s) && NothingFails(actions)
    ensures Careful(Run(s, actions))
    decreases |actions|
  {
    if actions != [] {
      StepKeepsInv(s, actions[0]);
      CarefulStep(s, actions[0]);
      assert forall a :: a in actions[1..] ==> a in actions;
      CarefulRun(Step(s, actions[0]), actions[1..]);
    }
  }

  /** When no file operation fails, every run works on the legacy contents. */
  lemma ReadableLegacySurvives(files: Files, actions: seq<Action>)
    requires NothingFails(actions)
    ensures Base(Run(Initial(files), actions)) == LegacyContents(files)
    ensures Base(Run(Initial(files), actions)) ==
            match files.enc
            case None => Fresh
            case Some(Empty) => Fresh
            case Some(Garbage) => Unreadable
            case Some(Sealed(key, vault)) =>
              if files.salt == Some(SaltFile(Some(key.salt))) && key.salt != [] then Locked(key.passphrase, vault) else Unreadable
  {
    InitialInv(files);
    CarefulRun(Initial(files), actions);
    RunKeepsInv(Initial(files), actions);
    LegacyConstant(Initial(files), actions);
    BaseIsLegacyIff(Run(Initial(files), actions));
  }

  lemma {:induction false} LegacyConstant(s: System, actions: seq<Action>)
    ensures Run(s, actions).legacy == s.legacy
    decreases |actions|
  {
    if actions != [] {
      LegacyConstant(Step(s, actions[0]), actions[1..]);
    }
  }

  /** Once there is a row, its salt and what it started from never change, over any further run. */
  lemma {:induction false} SaltNeverChanges(s: System, actions: seq<Action>)
    requires s.row.Some?
    ensures Run(s, actions).row.Some? && Run(s, actions).row.value.salt == s.row.value.salt
    ensures Run(s, actions).birth == s.birth
    decreases |actions|
  {
    if actions != [] {
      SaltNeverChanges(Step(s, actions[0]), actions[1..]);
    }
  }

  function KeyOf(pc: Pc): Option<Key> {
    match pc
    case BeginImmediate(key) => Some(key)
    case ReadInTransaction(key) => Some(key)
    case Commit(key, _) => Some(key)
    case PlainRead(key) => Some(key)
    case _ => None
  }

  /** All processes that have derived a key derived it from the row's one salt. */
  lemma KeysShareTheSalt(files: Files, actions: seq<Action>, pid: nat)
    requires var s := Run(Initial(files), actions); pid in s.procs && KeyOf(s.procs[pid].pc).Some?
    ensures var s := Run(Initial(files), actions);
            s.row.Some? && KeyOf(s.procs[pid].pc) == Some(Key(s.procs[pid].passphrase, s.row.value.salt))
  {
    InitialInv(files);
    RunKeepsInv(Initial(files), actions);
    var s := Run(Initial(files), actions);
    assert ProcessOk(s, pid);
  }

  /**
   The row was born with the legacy blob. It stands for the legacy contents exactly when the process
   that created it read a usable salt, or the blob does not open with that.
   */
  lemma RowStartsFromLegacy(files: Files, actions: seq<Action>)
    requires Run(Initial(files), actions).row.Some?
    ensures var s := Run(Initial(files), actions);
            && s.birth.Some? && s.birth.value.row.blob == files.enc
            && (s.birth.value.fromFile ==>
                  s.birth.value.row.salt != [] && files.salt == Some(SaltFile(Some(s.birth.value.row.salt))))
            && s.row.value.salt == s.birth.value.row.salt
            && (ContentsOf(Some(s.birth.value.row.salt), s.birth.value.row.blob) == LegacyContents(files)
                <==> s.birth.value.fromFile || !SealedUnderSalt(files))
  {
    InitialInv(files);
    RunKeepsInv(Initial(files), actions);
    LegacyConstant(Initial(files), actions);
    BaseIsLegacyIff(Run(Initial(files), actions));
  }
}
