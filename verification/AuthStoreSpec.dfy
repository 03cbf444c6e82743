/**
 The Postgres-backed auth store: one file and one row per credential, kept alike by
 compensating writes when one side fails.
 */
module AuthStoreSpec {
  import opened Prelude

  /** A file's text, and the JSON value it denotes if it is JSON at all. */
  datatype File = File(text: string, json: Option<string>)

  predicate Proper(f: File) {
    f.text == "" ==> f.json == None
  }

  /** One credential: its file and its row's JSON value. */
  datatype Cell = Cell(file: Option<File>, row: Option<string>)

  /** What Save is given: a token storage that writes its own file, metadata, or neither. */
  datatype Payload = Token(content: File, leftover: Option<File>) | Metadata(raw: File) | Neither

  /** Which of an operation's outside calls succeed. */
  datatype Luck = Luck(read: bool, mkdir: bool, reread: bool, write: bool, rename: bool,
                       readBack: bool, database: bool, remove: bool, undo: bool)

  datatype Outcome = Done | Skipped | Failed

  /** What the row should hold for a file. */
  function Mirror(file: Option<File>): Option<string> {
    if file == None || file.value.text == "" then None else file.value.json
  }

  ghost predicate Parity(c: Cell) {
    c.row == Mirror(c.file)
  }

  // ----- Save ---------------------------------------------------------------------------------

  /** jsonEqual */
  predicate SameJson(a: File, b: File) {
    a.json != None && a.json == b.json
  }

  /** The file once Save has written it, if that succeeds; a failing token storage may leave anything. */
  function Written(file: Option<File>, p: Payload, luck: Luck): Result<Option<File>, Option<File>> {
    match p
    case Token(content, leftover) => if luck.write then Ok(Some(content)) else Err(leftover)
    case Metadata(raw) =>
      if !luck.reread then Err(file)
      else if file != None && SameJson(file.value, raw) then Ok(file)
      else if luck.write && luck.rename then Ok(Some(raw)) else Err(file)
    case Neither => Err(file)
  }

  /** restoreAuthFileAfterFailedPersist */
  function Restored(previous: Option<File>, now: Option<File>, luck: Luck): Option<File> {
    if luck.undo then previous else now
  }

  /** upsertAuthRecord: the row afterwards, or failure. The table column only takes JSON. */
  function Upserted(file: Option<File>, luck: Luck): Result<Option<string>, ()> {
    if file == None || !luck.readBack || !luck.database then Err(())
    else if file.value.text == "" then Ok(None)
    else if file.value.json == None then Err(())
    else Ok(file.value.json)
  }

  /** Save; `managed` is whether the path lies in the store's own directory. */
  function Save(c: Cell, managed: bool, disabled: bool, p: Payload, luck: Luck): (Cell, Outcome) {
    if disabled && c.file == None then (c, Skipped)
    else if !luck.read || !luck.mkdir then (c, Failed)
    else
      match Written(c.file, p, luck)
      case Err(left) => (if p.Token? then c.(file := Restored(c.file, left, luck)) else c, Failed)
      case Ok(file) =>
        if !managed then (c.(file := file), Failed)
        else
          match Upserted(file, luck)
          case Err(_) => (c.(file := Restored(c.file, file, luck)), Failed)
          case Ok(row) => (Cell(file, row), Done)
  }

  // ----- Delete ------------------------------------------------------------------------------------

  /** persistAuth as compensation: the row it leaves. */
  function Reinserted(previous: Option<File>, luck: Luck): Option<string> {
    if previous == None || previous.value.json == None || !luck.undo then None else previous.value.json
  }

  /** Delete on a managed path; a file that is already gone is no failure to remove it. */
  function Delete(c: Cell, luck: Luck): (Cell, Outcome) {
    if !luck.read || !luck.database then (c, Failed)
    else if luck.remove then (Cell(None, None), Done)
    else (c.(row := Reinserted(c.file, luck)), Failed)
  }

  // ----- all or nothing --------------------------------------------------------------------------------

  /** A save that succeeds leaves file and row alike, holding what was given. */
  lemma SavedMeansBoth(c: Cell, disabled: bool, p: Payload, luck: Luck)
    requires Save(c, true, disabled, p, luck).1 == Done
    ensures var after := Save(c, true, disabled, p, luck).0;
      Parity(after) && after.file != None
      && match p
         case Token(content, _) => after.file == Some(content)
         case Metadata(raw) => after.file.value == raw || SameJson(after.file.value, raw)
         case Neither => false
  {
  }

  /** Whether a save gets as far as changing the file before it fails. */
  ghost predicate Disturbs(c: Cell, p: Payload, luck: Luck) {
    && luck.read && luck.mkdir
    && match Written(c.file, p, luck)
       case Err(left) => left != c.file
       case Ok(file) => file != c.file && Upserted(file, luck).Err?
  }

  /**
   A save that fails never touches the row, and leaves the file as it was unless it had to be undone and could
   not be.
   */
  lemma FailedSaveIsUndoneExactly(c: Cell, disabled: bool, p: Payload, luck: Luck)
    requires Save(c, true, disabled, p, luck).1 == Failed
    ensures Save(c, true, disabled, p, luck).0.row == c.row
    ensures Save(c, true, disabled, p, luck).0 == c <==> luck.undo || !Disturbs(c, p, luck)
  {
  }

  /** Outside the managed directory a save always fails, and one whose writes succeed is not undone. */
  lemma OutsideIsNotUndone(c: Cell, disabled: bool, p: Payload, luck: Luck)
    ensures Save(c, false, disabled, p, luck).1 != Done
    ensures luck.undo && !(disabled && c.file == None) ==>
      (Save(c, false, disabled, p, luck).0 == c <==>
        !(luck.read && luck.mkdir && Written(c.file, p, luck).Ok? && Written(c.file, p, luck).value != c.file))
  {
  }

  /** A delete that fails keeps the file, and keeps the row unless it went with no file to restore it from. */
  lemma FailedDeleteIsUndoneExactly(c: Cell, luck: Luck)
    requires Delete(c, luck).1 == Failed
    ensures Delete(c, luck).0.file == c.file
    ensures Delete(c, luck).0 == c <==>
      !luck.read || !luck.database || c.row == (if luck.undo && c.file != None then c.file.value.json else None)
  {
  }

  /** From parity, an operation whose compensation works either succeeds in parity or changes nothing. */
  lemma AllOrNothing(c: Cell, disabled: bool, p: Payload, luck: Luck)
    requires Parity(c) && luck.undo && (c.file != None ==> Proper(c.file.value))
    ensures Parity(Save(c, true, disabled, p, luck).0) && Parity(Delete(c, luck).0)
    ensures Save(c, true, disabled, p, luck).1 != Done ==> Save(c, true, disabled, p, luck).0 == c
    ensures Delete(c, luck).1 != Done ==> Delete(c, luck).0 == c
  {
  }

  // ----- when it succeeds ---------------------------------------------------------------------------------

  /** What the file would hold can be stored in a row: it is JSON, or empty. */
  predicate Storable(f: File) {
    f.text == "" || f.json != None
  }

  /**
   A managed save is skipped exactly for a disabled credential without a file, and succeeds
   exactly if every call it needs does and what it leaves in the file can go into a row.
   */
  lemma SaveSucceedsExactly(c: Cell, disabled: bool, p: Payload, luck: Luck)
    ensures var outcome := Save(c, true, disabled, p, luck).1;
      && (outcome == Skipped <==> disabled && c.file == None)
      && (outcome == Done <==>
            && !(disabled && c.file == None)
            && luck.read && luck.mkdir && luck.readBack && luck.database
            && match p
               case Token(content, _) => luck.write && Storable(content)
               case Metadata(raw) =>
                 && luck.reread
                 && (if c.file != None && raw.json != None && c.file.value.json == raw.json then
                       Storable(c.file.value) else luck.write && luck.rename && Storable(raw))
               case Neither => false)
  {
  }

  /** A delete succeeds exactly if reading, database and removal do, and then nothing is left. */
  lemma DeleteSucceedsExactly(c: Cell, luck: Luck)
    ensures Delete(c, luck).1 == (if luck.read && luck.database && luck.remove then Done else Failed)
    ensures Delete(c, luck).1 == Done ==> Delete(c, luck).0 == Cell(None, None)
  {
  }

  /** A disabled credential whose file exists is saved like any other. */
  lemma DisabledIsSavedToo(c: Cell, p: Payload, luck: Luck)
    requires c.file != None
    ensures Save(c, true, true, p, luck) == Save(c, true, false, p, luck)
  {
  }
}
