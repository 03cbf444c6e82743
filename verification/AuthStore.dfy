/** The auth store over a directory and a table, and runs of saves and deletes under faults. */
module AuthStore {
  import opened Prelude
  import opened AuthStoreSpec

  /** A path inside the store's directory is known by the row id it maps to. */
  datatype Path = Managed(id: string) | Outside(path: string)

  datatype Disk = Disk(files: map<Path, File>, rows: map<string, string>)

  function CellAt(d: Disk, path: Path): Cell {
    Cell(if path in d.files then Some(d.files[path]) else None,
         if path.Managed? && path.id in d.rows then Some(d.rows[path.id]) else None)
  }

  /** Every other file and row is as before. */
  ghost predicate OnlyAt(before: Disk, after: Disk, path: Path) {
    && after.files - {path} == before.files - {path}
    && (if path.Managed? then after.rows - {path.id} == before.rows - {path.id} else after.rows == before.rows)
  }

  function Put(d: Disk, path: Path, c: Cell): Disk {
    Disk(if c.file == None then d.files - {path} else d.files[path := c.file.value],
         if path.Outside? then d.rows else if c.row == None then d.rows - {path.id} else d.rows[path.id := c.row.value])
  }

  lemma PutIsOnlyThere(d: Disk, path: Path, c: Cell, other: Path)
    requires path.Outside? ==> c.row == None
    ensures CellAt(Put(d, path, c), path) == c && OnlyAt(d, Put(d, path, c), path)
    ensures other != path ==> CellAt(Put(d, path, c), other) == CellAt(d, other)
  {
  }

  class Store {
    var files: map<Path, File>
    var rows: map<string, string>

    ghost function View(): Disk
      reads this
    {
      Disk(files, rows)
    }

    constructor ()
      ensures View() == Disk(map[], map[])
    {
      files, rows := map[], map[];
    }

    method SetFile(path: Path, file: Option<File>)
      modifies this`files
      ensures CellAt(View(), path) == old(CellAt(View(), path)).(file := file) && OnlyAt(old(View()), View(), path)
    {
      files := if file == None then files - {path} else files[path := file.value];
    }

    method SetRow(id: string, row: Option<string>)
      modifies this`rows
      ensures CellAt(View(), Managed(id)) == old(CellAt(View(), Managed(id))).(row := row)
      ensures OnlyAt(old(View()), View(), Managed(id))
    {
      rows := if row == None then rows - {id} else rows[id := row.value];
    }

    /** The file part of Save. */
    method Write(path: Path, p: Payload, luck: Luck) returns (ok: bool)
      modifies this`files
      ensures CellAt(View(), path) == old(CellAt(View(), path)).(file := CellAt(View(), path).file)
      ensures OnlyAt(old(View()), View(), path)
      ensures Written(old(CellAt(View(), path)).file, p, luck)
        == (if ok then Ok(CellAt(View(), path).file) else Err(CellAt(View(), path).file))
      ensures if ok then path in files else p.Token? || CellAt(View(), path) == old(CellAt(View(), path))
    {
      hide SameJson;
      match p
      case Token(content, leftover) =>
        SetFile(path, if luck.write then Some(content) else leftover);
        return luck.write;
      case Metadata(raw) =>
        if !luck.reread { return false; }
        if path in files && SameJson(files[path], raw) { return true; }
        if !luck.write || !luck.rename { return false; }
        SetFile(path, Some(raw));
        return true;
      case Neither => return false;
    }

    /** Save; each `luck` flag is whether one outside call succeeds. */
    method Save(path: Path, disabled: bool, p: Payload, luck: Luck) returns (outcome: Outcome)
      modifies this
      ensures (CellAt(View(), path), outcome)
        == AuthStoreSpec.Save(old(CellAt(View(), path)), path.Managed?, disabled, p, luck)
      ensures OnlyAt(old(View()), View(), path)
    {
      hide Written;
      if disabled && path !in files { return Skipped; }
      if !luck.read { return Failed; }
      var previous := if path in files then Some(files[path]) else None;
      if !luck.mkdir { return Failed; }
      var written := Write(path, p, luck);
      if !written {
        if p.Token? && luck.undo { SetFile(path, previous); }
        return Failed;
      }
      if path.Outside? { return Failed; }
      if !luck.readBack || !luck.database || (files[path].text != "" && files[path].json == None) {
        if luck.undo { SetFile(path, previous); }
        return Failed;
      }
      SetRow(path.id, if files[path].text == "" then None else files[path].json);
      outcome := Done;
    }

    /** Delete */
    method Delete(id: string, luck: Luck) returns (outcome: Outcome)
      modifies this
      ensures (CellAt(View(), Managed(id)), outcome) == AuthStoreSpec.Delete(old(CellAt(View(), Managed(id))), luck)
      ensures OnlyAt(old(View()), View(), Managed(id))
    {
      if !luck.read { return Failed; }
      var previous := if Managed(id) in files then Some(files[Managed(id)]) else None;
      if !luck.database { return Failed; }
      SetRow(id, None);
      if !luck.remove {
        if previous != None && luck.undo && previous.value.json != None { SetRow(id, previous.value.json); }
        return Failed;
      }
      SetFile(Managed(id), None);
      outcome := Done;
    }
  }

  // ----- runs --------------------------------------------------------------------------------------

  datatype Event = Saving(path: Path, disabled: bool, payload: Payload, luck: Luck) | Deleting(id: string, luck: Luck)

  function At(e: Event): Path {
    if e.Saving? then e.path else Managed(e.id)
  }

  function Effect(c: Cell, e: Event): (Cell, Outcome) {
    match e
    case Saving(path, disabled, payload, luck) => Save(c, path.Managed?, disabled, payload, luck)
    case Deleting(_, luck) => Delete(c, luck)
  }

  function Run(events: seq<Event>): Disk {
    if events == [] then Disk(map[], map[])
    else
      var before, e := Run(events[..|events| - 1]), events[|events| - 1];
      Put(before, At(e), Effect(CellAt(before, At(e)), e).0)
  }

  /** Metadata is JSON, an empty token file is not, and compensating writes succeed. */
  ghost predicate Fair(e: Event) {
    && e.luck.undo
    && (e.Saving? && e.payload.Token? ==> Proper(e.payload.content))
    && (e.Saving? && e.payload.Metadata? ==> e.payload.raw.text != "" && e.payload.raw.json != None)
  }

  /** What the last successful operation on an id asked for. */
  function LastDone(events: seq<Event>, id: string): Option<string> {
    if events == [] then None
    else
      var front, e := events[..|events| - 1], events[|events| - 1];
      var before := LastDone(front, id);
      if At(e) != Managed(id) || Effect(CellAt(Run(front), At(e)), e).1 != Done then before
      else
        match e
        case Deleting(_, _) => None
        case Saving(_, _, payload, _) =>
          match payload
          case Token(content, _) => Mirror(Some(content))
          case Metadata(raw) => raw.json
          case Neither => before
  }

  ghost predicate Kept(c: Cell, asked: Option<string>) {
    Parity(c) && c.row == asked && (c.file != None ==> Proper(c.file.value))
  }

  lemma OutsideHasNoRow(c: Cell, e: Event)
    requires e.Saving? && e.path.Outside? && c.row == None
    ensures Effect(c, e).0.row == None
  {
  }

  lemma DoneSaveHolds(c: Cell, disabled: bool, payload: Payload, luck: Luck, path: Path)
    requires path.Managed? && Fair(Saving(path, disabled, payload, luck)) && (c.file != None ==> Proper(c.file.value))
    requires Save(c, true, disabled, payload, luck).1 == Done
    ensures payload.Token? || payload.Metadata?
    ensures Kept(Save(c, true, disabled, payload, luck).0,
      if payload.Token? then Mirror(Some(payload.content)) else if payload.Metadata? then payload.raw.json else None)
  {
  }

  /**
   Whatever else fails, as long as compensations succeed every row mirrors its file after
   every operation, and both hold what the last successful operation on them asked for.
   */
  lemma {:induction false} EveryRunKeepsParity(events: seq<Event>, id: string)
    requires forall i :: 0 <= i < |events| ==> Fair(events[i])
    ensures Kept(CellAt(Run(events), Managed(id)), LastDone(events, id))
  {
    if events != [] {
      hide Save, Delete, Put;
      var front, e := events[..|events| - 1], events[|events| - 1];
      var c := CellAt(Run(front), At(e));
      EveryRunKeepsParity(front, id);
      if e.Saving? && e.path.Outside? { OutsideHasNoRow(c, e); }
      PutIsOnlyThere(Run(front), At(e), Effect(c, e).0, Managed(id));
      if At(e) == Managed(id) {
        AllOrNothing(c, if e.Saving? then e.disabled else false, if e.Saving? then e.payload else Neither, e.luck);
        if e.Saving? && Effect(c, e).1 == Done { DoneSaveHolds(c, e.disabled, e.payload, e.luck, e.path); }
        if e.Deleting? && Effect(c, e).1 == Done { DoneDeleteIsEmpty(c, e.luck); }
      }
    }
  }

  lemma DoneDeleteIsEmpty(c: Cell, luck: Luck)
    requires Delete(c, luck).1 == Done
    ensures Delete(c, luck).0 == Cell(None, None)
  {
  }
}
