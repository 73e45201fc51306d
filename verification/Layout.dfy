/**
 Every path the keystore may write, and what each entry found under it is.

 Models `Slot`, `StageKind`, `Entry`, `classify` and the name predicates of
 rust-lib/src/layout.rs. A relative path is the sequence of its components.
 */
module Layout {
  import opened Base
  import opened Text

  type Path = seq<string>

  const STAGE_PREFIX: string := ".stage-"
  const IMPORT_INFIX: string := "import-"
  const IMPORT_FILE: string := "import.json"
  const DOC_STAGE_PREFIX: string := ".ks-stage-"
  const GROUPS: string := "groups"
  const LOCK: string := ".lock"
  const JSON: string := ".json"
  /** Deepest path the layout explains. */
  const MAX_DEPTH: nat := 3

  datatype Doc = Groups | Accounts | Labels | GroupLabels

  function DocFile(d: Doc): string {
    match d
    case Groups => "groups.json"
    case Accounts => "accounts.json"
    case Labels => "labels.json"
    case GroupLabels => "group-labels.json"
  }

  datatype StageKind = OfVault(addr: string) | OfGroup(id: string) | OfImport(nonce: string)

  /** The paths the keystore writes. */
  datatype Slot =
    | Vault(addr: string)
    | GroupKey(id: string)
    | GroupDir
    | DocSlot(doc: Doc)
    | Stage(kind: StageKind)
    | Lock

  datatype Kind = IsFile | IsDir | IsLink | IsOther

  datatype Entry =
    | VaultEntry(addr: string)
    | StagedVault(addr: string)
    | GroupKeyEntry(id: string)
    | StagedGroupKey(id: string)
    | DocEntry(doc: Doc)
    | DocStage
    | LockEntry
    | GroupDirEntry
    | VaultStage(addr: string)
    | GroupStage(id: string)
    | ImportStage(nonce: string)
    | ImportScratch(nonce: string)
    | Unexplained

  // ---- names ---------------------------------------------------------------------------

  predicate IsGroupId(id: string) {
    |id| == 34 && StartsWith(id, "g_") && IsHex(id[2..], 32)
  }

  predicate IsAddr(addr: string) {
    IsHex(addr, 40)
  }

  predicate IsNonce(nonce: string) {
    IsHex(nonce, 32)
  }

  predicate ValidKind(kind: StageKind) {
    match kind
    case OfVault(addr) => IsAddr(addr)
    case OfGroup(id) => IsGroupId(id)
    case OfImport(nonce) => IsNonce(nonce)
  }

  predicate ValidSlot(slot: Slot) {
    match slot
    case Vault(addr) => IsAddr(addr)
    case GroupKey(id) => IsGroupId(id)
    case Stage(kind) => ValidKind(kind)
    case _ => true
  }

  function StageDirName(kind: StageKind): string {
    match kind
    case OfVault(addr) => STAGE_PREFIX + addr
    case OfGroup(id) => STAGE_PREFIX + id
    case OfImport(nonce) => STAGE_PREFIX + (IMPORT_INFIX + nonce)
  }

  function VaultFile(addr: string): string {
    addr + JSON
  }

  /** `Slot::rel`: the only path builder. */
  function Rel(slot: Slot): Path {
    match slot
    case Vault(addr) => [VaultFile(addr)]
    case GroupKey(id) => [GROUPS, id + JSON]
    case GroupDir => [GROUPS]
    case DocSlot(d) => [DocFile(d)]
    case Stage(OfVault(addr)) => [StageDirName(OfVault(addr))]
    case Stage(OfGroup(id)) => [GROUPS, StageDirName(OfGroup(id))]
    case Stage(OfImport(nonce)) => [StageDirName(OfImport(nonce))]
    case Lock => [LOCK]
  }

  /** `Slot::staged_name`: the file a stage comes to hold. */
  function StagedName(kind: StageKind): string {
    match kind
    case OfVault(addr) => addr + JSON
    case OfGroup(id) => id + JSON
    case OfImport(_) => IMPORT_FILE
  }

  function StagedRel(kind: StageKind): Path {
    Rel(Stage(kind)) + [StagedName(kind)]
  }

  // ---- the classifier ------------------------------------------------------------------

  function VaultStem(name: string): Option<string> {
    var stem := StripSuffix(name, JSON);
    if stem.Some? && IsAddr(stem.value) then stem else None
  }

  function GroupStem(name: string): Option<string> {
    var stem := StripSuffix(name, JSON);
    if stem.Some? && IsGroupId(stem.value) then stem else None
  }

  function StageName(name: string): Option<StageKind> {
    var rest := StripPrefix(name, STAGE_PREFIX);
    if rest.None? then None
    else
      var nonce := StripPrefix(rest.value, IMPORT_INFIX);
      if nonce.Some? then (if IsNonce(nonce.value) then Some(OfImport(nonce.value)) else None)
      else if IsAddr(rest.value) then Some(OfVault(rest.value))
      else if IsGroupId(rest.value) then Some(OfGroup(rest.value))
      else None
  }

  function DocOfFile(name: string): Option<Doc> {
    if name == DocFile(Groups) then Some(Groups)
    else if name == DocFile(Accounts) then Some(Accounts)
    else if name == DocFile(Labels) then Some(Labels)
    else if name == DocFile(GroupLabels) then Some(GroupLabels)
    else None
  }

  function FileUnderRoot(name: string): Entry {
    var addr := VaultStem(name);
    var doc := DocOfFile(name);
    if addr.Some? then VaultEntry(addr.value)
    else if doc.Some? then DocEntry(doc.value)
    else if name == LOCK then LockEntry
    else if StartsWith(name, DOC_STAGE_PREFIX) then DocStage
    else Unexplained
  }

  function DirUnderRoot(name: string): Entry {
    match StageName(name)
    case Some(OfVault(addr)) => VaultStage(addr)
    case Some(OfImport(nonce)) => ImportStage(nonce)
    case _ => if name == GROUPS then GroupDirEntry else Unexplained
  }

  function FileAtTwo(parent: string, name: string): Entry {
    match StageName(parent)
    case Some(OfVault(addr)) => if VaultStem(name) == Some(addr) then StagedVault(addr) else Unexplained
    case Some(OfImport(nonce)) => if name == IMPORT_FILE then ImportScratch(nonce) else Unexplained
    case Some(OfGroup(_)) => Unexplained
    case None =>
      if parent != GROUPS then Unexplained
      else match GroupStem(name) case Some(id) => GroupKeyEntry(id) case None => Unexplained
  }

  function DirAtTwo(parent: string, name: string): Entry {
    match StageName(name)
    case Some(OfGroup(id)) => if parent == GROUPS then GroupStage(id) else Unexplained
    case _ => Unexplained
  }

  function FileAtThree(top: string, parent: string, name: string): Entry {
    if top != GROUPS then Unexplained
    else
      match StageName(parent)
      case Some(OfGroup(id)) => if GroupStem(name) == Some(id) then StagedGroupKey(id) else Unexplained
      case _ => Unexplained
  }

  /** `classify`: total over every path and every kind. */
  function Classify(rel: Path, kind: Kind): Entry {
    if |rel| == 1 && kind == IsFile then FileUnderRoot(rel[0])
    else if |rel| == 1 && kind == IsDir then DirUnderRoot(rel[0])
    else if |rel| == 2 && kind == IsFile then FileAtTwo(rel[0], rel[1])
    else if |rel| == 2 && kind == IsDir then DirAtTwo(rel[0], rel[1])
    else if |rel| == 3 && kind == IsFile then FileAtThree(rel[0], rel[1], rel[2])
    else Unexplained
  }

  /** A name this keystore could have written for a derivation key or its stage. */
  predicate NamesKeyMaterial(name: string) {
    || GroupStem(name).Some?
    || IsGroupId(name)
    || (StageName(name).Some? && StageName(name).value.OfGroup?)
  }

  /** Where everything the keystore writes is, below its directory. */
  lemma PathsWritten(addr: string, id: string, nonce: string)
    ensures Rel(Vault(addr)) == [addr + ".json"] && Rel(GroupKey(id)) == ["groups", id + ".json"] && Rel(GroupDir) == ["groups"]
    ensures Rel(DocSlot(Groups)) == ["groups.json"] && Rel(DocSlot(Accounts)) == ["accounts.json"]
    ensures Rel(DocSlot(Labels)) == ["labels.json"] && Rel(DocSlot(GroupLabels)) == ["group-labels.json"] && Rel(Lock) == [".lock"]
    ensures Rel(Stage(OfVault(addr))) == [".stage-" + addr] && StagedName(OfVault(addr)) == addr + ".json"
    ensures Rel(Stage(OfGroup(id))) == ["groups", ".stage-" + id] && StagedName(OfGroup(id)) == id + ".json"
    ensures Rel(Stage(OfImport(nonce))) == [".stage-import-" + nonce] && StagedName(OfImport(nonce)) == "import.json"
  {
    assert ".stage-" + ("import-" + nonce) == ".stage-import-" + nonce;
  }

  // ---- names are read back as what they were built from --------------------------------

  lemma GroupIdShape(id: string)
    requires IsGroupId(id)
    ensures id[0] == 'g' && id[1] == '_'
  {
    assert id[..2] == "g_";
  }

  lemma VaultStemExact(name: string, addr: string)
    ensures VaultStem(name) == Some(addr) <==> IsAddr(addr) && name == VaultFile(addr)
  {
    StripSuffixInverts(name, JSON, addr);
  }

  lemma GroupStemExact(name: string, id: string)
    ensures GroupStem(name) == Some(id) <==> IsGroupId(id) && name == id + JSON
  {
    StripSuffixInverts(name, JSON, id);
  }

  /** The three stage shapes are told apart from each other by name alone. */
  lemma StageNameExact(name: string, kind: StageKind)
    ensures StageName(name) == Some(kind) <==> ValidKind(kind) && name == StageDirName(kind)
  {
    var rest := StripPrefix(name, STAGE_PREFIX);
    if StageName(name) == Some(kind) {
      StripPrefixInverts(name, STAGE_PREFIX, rest.value);
      if kind.OfImport? {
        StripPrefixInverts(rest.value, IMPORT_INFIX, kind.nonce);
      }
    }
    if ValidKind(kind) && name == StageDirName(kind) {
      match kind {
        case OfVault(addr) =>
          StripPrefixInverts(name, STAGE_PREFIX, addr);
          assert IsLowerHex(addr[0]);
          assert !StartsWith(addr, IMPORT_INFIX) by {
            assert IMPORT_INFIX[0] == 'i';
          }
        case OfGroup(id) =>
          StripPrefixInverts(name, STAGE_PREFIX, id);
          GroupIdShape(id);
          assert !StartsWith(id, IMPORT_INFIX) by {
            assert IMPORT_INFIX[0] == 'i';
          }
        case OfImport(nonce) =>
          StripPrefixInverts(name, STAGE_PREFIX, IMPORT_INFIX + nonce);
          StripPrefixInverts(IMPORT_INFIX + nonce, IMPORT_INFIX, nonce);
      }
    }
  }

  /** Hex-named files, the documents, the lock and interrupted documents are all distinct. */
  lemma RootFilesDistinct(addr: string, d: Doc)
    requires IsAddr(addr)
    ensures DocOfFile(VaultFile(addr)) == None && VaultFile(addr) != LOCK
    ensures !StartsWith(VaultFile(addr), DOC_STAGE_PREFIX)
    ensures DocOfFile(DocFile(d)) == Some(d) && VaultStem(DocFile(d)) == None
    ensures DocFile(d) != LOCK && !StartsWith(DocFile(d), DOC_STAGE_PREFIX)
    ensures VaultStem(LOCK) == None && DocOfFile(LOCK) == None && !StartsWith(LOCK, DOC_STAGE_PREFIX)
  {
    assert |VaultFile(addr)| == 45 && IsLowerHex(VaultFile(addr)[0]);
    assert |DocFile(d)| <= 17 && |LOCK| == 5;
    assert VaultFile(addr)[0] != '.';
  }

  // ---- classify is the exact inverse of rel --------------------------------------------

  /** Entries with one path of their own: all but the two open-ended ones. */
  predicate Named(e: Entry) {
    e != Unexplained && e != DocStage
  }

  /** The path the slot authority builds for what an entry is. */
  function PathOf(e: Entry): Path
    requires Named(e)
  {
    match e
    case VaultEntry(addr) => Rel(Vault(addr))
    case StagedVault(addr) => StagedRel(OfVault(addr))
    case GroupKeyEntry(id) => Rel(GroupKey(id))
    case StagedGroupKey(id) => StagedRel(OfGroup(id))
    case DocEntry(d) => Rel(DocSlot(d))
    case LockEntry => Rel(Lock)
    case GroupDirEntry => Rel(GroupDir)
    case VaultStage(addr) => Rel(Stage(OfVault(addr)))
    case GroupStage(id) => Rel(Stage(OfGroup(id)))
    case ImportStage(nonce) => Rel(Stage(OfImport(nonce)))
    case ImportScratch(nonce) => StagedRel(OfImport(nonce))
  }

  function KindOfEntry(e: Entry): Kind {
    if e.GroupDirEntry? || e.VaultStage? || e.GroupStage? || e.ImportStage? then IsDir else IsFile
  }

  predicate ValidEntry(e: Entry) {
    match e
    case VaultEntry(addr) => IsAddr(addr)
    case StagedVault(addr) => IsAddr(addr)
    case GroupKeyEntry(id) => IsGroupId(id)
    case StagedGroupKey(id) => IsGroupId(id)
    case VaultStage(addr) => IsAddr(addr)
    case GroupStage(id) => IsGroupId(id)
    case ImportStage(nonce) => IsNonce(nonce)
    case ImportScratch(nonce) => IsNonce(nonce)
    case _ => true
  }

  lemma DocOfFileExact(name: string, d: Doc)
    ensures DocOfFile(name) == Some(d) <==> name == DocFile(d)
  {
    RootFilesDistinct(seq(40, _ => '0'), d);
  }

  lemma FileUnderRootExact(name: string, e: Entry)
    requires Named(e)
    ensures FileUnderRoot(name) == e <==> ValidEntry(e) && [name] == PathOf(e) && KindOfEntry(e) == IsFile
  {
    match e {
      case VaultEntry(addr) =>
        VaultStemExact(name, addr);
      case DocEntry(d) =>
        DocOfFileExact(name, d);
        RootFilesDistinct(seq(40, _ => '0'), d);
      case LockEntry =>
        RootFilesDistinct(seq(40, _ => '0'), Groups);
      case _ =>
        OtherFilesAreDeeper(e);
    }
  }

  lemma OtherFilesAreDeeper(e: Entry)
    requires Named(e) && !e.VaultEntry? && !e.DocEntry? && !e.LockEntry?
    ensures KindOfEntry(e) == IsFile ==> |PathOf(e)| >= 2
  {
  }

  lemma GroupsIsNoStage()
    ensures StageName(GROUPS) == None
  {
    assert GROUPS[0] == 'g' && STAGE_PREFIX[0] == '.';
  }

  lemma DirUnderRootExact(name: string, e: Entry)
    requires Named(e)
    ensures DirUnderRoot(name) == e <==> ValidEntry(e) && [name] == PathOf(e) && KindOfEntry(e) == IsDir
  {
    GroupsIsNoStage();
    if StageName(name).Some? {
      StageNameExact(name, StageName(name).value);
    }
    if [name] == PathOf(e) {
      assert [name][0] == PathOf(e)[0];
    }
    match e {
      case VaultStage(addr) => StageNameExact(name, OfVault(addr));
      case ImportStage(nonce) => StageNameExact(name, OfImport(nonce));
      case GroupStage(id) => assert |PathOf(e)| == 2;
      case _ =>
    }
  }

  lemma FileAtTwoExact(parent: string, name: string, e: Entry)
    requires Named(e)
    ensures FileAtTwo(parent, name) == e <==> ValidEntry(e) && [parent, name] == PathOf(e) && KindOfEntry(e) == IsFile
  {
    GroupsIsNoStage();
    if StageName(parent).Some? {
      StageNameExact(parent, StageName(parent).value);
    }
    if [parent, name] == PathOf(e) {
      assert [parent, name][0] == PathOf(e)[0] && [parent, name][1] == PathOf(e)[1];
    }
    match e {
      case StagedVault(addr) =>
        StageNameExact(parent, OfVault(addr));
        VaultStemExact(name, addr);
      case ImportScratch(nonce) =>
        StageNameExact(parent, OfImport(nonce));
      case GroupKeyEntry(id) =>
        GroupStemExact(name, id);
      case StagedGroupKey(id) => assert |PathOf(e)| == 3;
      case _ =>
    }
  }

  lemma DirAtTwoExact(parent: string, name: string, e: Entry)
    requires Named(e)
    ensures DirAtTwo(parent, name) == e <==> ValidEntry(e) && [parent, name] == PathOf(e) && KindOfEntry(e) == IsDir
  {
    if [parent, name] == PathOf(e) {
      assert [parent, name][0] == PathOf(e)[0] && [parent, name][1] == PathOf(e)[1];
    }
    match e {
      case GroupStage(id) => StageNameExact(name, OfGroup(id));
      case VaultStage(addr) => assert |PathOf(e)| == 1;
      case ImportStage(nonce) => assert |PathOf(e)| == 1;
      case GroupDirEntry => assert |PathOf(e)| == 1;
      case _ =>
    }
  }

  lemma FileAtThreeExact(top: string, parent: string, name: string, e: Entry)
    requires Named(e)
    ensures FileAtThree(top, parent, name) == e <==>
      ValidEntry(e) && [top, parent, name] == PathOf(e) && KindOfEntry(e) == IsFile
  {
    if [top, parent, name] == PathOf(e) {
      assert [top, parent, name][0] == PathOf(e)[0];
      assert [top, parent, name][1] == PathOf(e)[1] && [top, parent, name][2] == PathOf(e)[2];
    }
    match e {
      case StagedGroupKey(id) =>
        StageNameExact(parent, OfGroup(id));
        GroupStemExact(name, id);
      case _ =>
    }
  }

  /**
   A path is classified as an entry exactly where it is that entry's own path, at the one
   kind it is written as: a name recognised for one kind is refused for the other three.
   */
  lemma ClassifyInvertsRel(rel: Path, kind: Kind, e: Entry)
    requires Named(e)
    ensures Classify(rel, kind) == e <==> ValidEntry(e) && rel == PathOf(e) && kind == KindOfEntry(e)
  {
    if |rel| == 1 {
      assert rel == [rel[0]];
      FileUnderRootExact(rel[0], e);
      DirUnderRootExact(rel[0], e);
    } else if |rel| == 2 {
      assert rel == [rel[0], rel[1]];
      FileAtTwoExact(rel[0], rel[1], e);
      DirAtTwoExact(rel[0], rel[1], e);
    } else if |rel| == 3 {
      assert rel == [rel[0], rel[1], rel[2]];
      FileAtThreeExact(rel[0], rel[1], rel[2], e);
      assert KindOfEntry(e) == IsDir ==> |PathOf(e)| <= 2;
    } else {
      assert 1 <= |PathOf(e)| <= 3;
    }
  }

  /** An interrupted document is exactly a file under the root with the staging prefix. */
  lemma DocStageExact(rel: Path, kind: Kind)
    ensures Classify(rel, kind) == DocStage <==> |rel| == 1 && kind == IsFile && StartsWith(rel[0], DOC_STAGE_PREFIX)
  {
    if |rel| == 1 && StartsWith(rel[0], DOC_STAGE_PREFIX) {
      var name := rel[0];
      assert name[..10] == DOC_STAGE_PREFIX;
      assert name[0] == '.' && name[1] == 'k';
      if VaultStem(name).Some? {
        VaultStemExact(name, VaultStem(name).value);
      }
      if DocOfFile(name).Some? {
        RootFilesDistinct(seq(40, _ => '0'), DocOfFile(name).value);
      }
      assert name != LOCK;
    }
  }

  function EntryOf(slot: Slot): Entry {
    match slot
    case Vault(addr) => VaultEntry(addr)
    case GroupKey(id) => GroupKeyEntry(id)
    case GroupDir => GroupDirEntry
    case DocSlot(d) => DocEntry(d)
    case Stage(OfVault(addr)) => VaultStage(addr)
    case Stage(OfGroup(id)) => GroupStage(id)
    case Stage(OfImport(nonce)) => ImportStage(nonce)
    case Lock => LockEntry
  }

  function StagedEntry(kind: StageKind): Entry {
    match kind
    case OfVault(addr) => StagedVault(addr)
    case OfGroup(id) => StagedGroupKey(id)
    case OfImport(nonce) => ImportScratch(nonce)
  }

  /** What the authority builds, the scan names again, and it does so at one kind only. */
  lemma SlotsAreRecognised(slot: Slot, kind: Kind)
    requires ValidSlot(slot)
    ensures Classify(Rel(slot), kind) == EntryOf(slot) <==> kind == KindOfEntry(EntryOf(slot))
    ensures slot.Stage? ==> Classify(StagedRel(slot.kind), IsFile) == StagedEntry(slot.kind)
  {
    ClassifyInvertsRel(Rel(slot), kind, EntryOf(slot));
    if slot.Stage? {
      ClassifyInvertsRel(StagedRel(slot.kind), IsFile, StagedEntry(slot.kind));
    }
  }

  /** Two different valid slots never share a path, whatever they hold. */
  lemma SlotsNeverSharePaths(a: Slot, b: Slot)
    requires ValidSlot(a) && ValidSlot(b) && Rel(a) == Rel(b)
    ensures a == b
  {
    SlotsDifferInKind(a, b);
    SlotsAreRecognised(a, KindOfEntry(EntryOf(a)));
    SlotsAreRecognised(b, KindOfEntry(EntryOf(a)));
  }

  /** Files and directories of the layout differ by name as well, not by kind alone. */
  lemma SlotsDifferInKind(a: Slot, b: Slot)
    requires ValidSlot(a) && ValidSlot(b) && Rel(a) == Rel(b)
    ensures KindOfEntry(EntryOf(a)) == KindOfEntry(EntryOf(b))
  {
    KindShowsInName(a);
    KindShowsInName(b);
  }

  lemma KindShowsInName(slot: Slot)
    requires ValidSlot(slot)
    ensures
      var name := Rel(slot)[|Rel(slot)| - 1];
      KindOfEntry(EntryOf(slot)) == IsDir <==> name == GROUPS || StartsWith(name, STAGE_PREFIX)
  {
    var name := Rel(slot)[|Rel(slot)| - 1];
    assert STAGE_PREFIX[0] == '.' && STAGE_PREFIX[1] == 's';
    match slot {
      case Vault(addr) =>
        assert IsLowerHex(name[0]) && |name| == 45;
      case GroupKey(id) =>
        GroupIdShape(id);
        assert name[0] == 'g' && |name| == 39;
      case DocSlot(d) =>
        assert name[|name| - 1] == 'n';
      case _ =>
    }
  }
}
