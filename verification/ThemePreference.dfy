/**
  Theme preferences kept in browser storage that may fail at any time
  (apps/web/src/workspaceThemePreference.ts). A copy in the page answers reads while storage
  does not hold the last write.
  */
module ThemePreference {
  import opened Wrappers

  type Themes = map<string, string>

  datatype Value = Theme(theme: string) | NotText

  /** What storage holds under the map's key: nothing, text that is no JSON object, or an object. */
  datatype Cell = Nothing | Malformed | Entries(values: map<string, Value>)

  /** Whether storage can be read, and accepts a write, while one operation runs. */
  datatype Io = Io(readable: bool, accepts: bool)

  datatype Copy<T> = Copy(value: T, persisted: bool)

  /** `present`: the browser defines `localStorage` at all. */
  datatype Page = Page(present: bool, cell: Cell, session: Option<Copy<Themes>>)

  predicate ValidId(id: string) {
    0 < |id| <= 128
  }

  function ThemesIn(cell: Cell): Themes {
    if cell.Entries? then
      map id | id in cell.values && ValidId(id) && cell.values[id].Theme? :: cell.values[id].theme
    else map[]
  }

  function AsEntries(themes: Themes): Cell {
    Entries(map id | id in themes :: Theme(themes[id]))
  }

  // ---------------------------------------------------------------------------------------
  // The operations
  // ---------------------------------------------------------------------------------------

  /** `readMap` */
  function Read(p: Page, readable: bool): Themes {
    if p.session.Some? && !p.session.value.persisted then p.session.value.value
    else if !p.present then map[]
    else if readable then ThemesIn(p.cell)
    else if p.session.Some? then p.session.value.value
    else map[]
  }

  /** `writeMap` */
  function Store(p: Page, themes: Themes, accepts: bool): Page {
    if p.present && accepts then p.(cell := AsEntries(themes), session := Some(Copy(themes, true)))
    else p.(session := Some(Copy(themes, false)))
  }

  datatype Op = Write(id: string, theme: string) | Clear(id: string) | Move(from: string, to: string)

  /** Whether the operation gets as far as writing, given the map it read. */
  predicate Writes(m: Themes, op: Op) {
    match op
    case Write(id, _) => ValidId(id)
    case Clear(id) => id in m
    case Move(from, to) => from != "" && to != "" && from != to && from in m && m[from] != ""
  }

  /** What the operation means: the map without a storage underneath. */
  function Meaning(m: Themes, op: Op): Themes {
    if !Writes(m, op) then m
    else match op
      case Write(id, theme) => m[id := theme]
      case Clear(id) => m - {id}
      case Move(from, to) => (m - {from})[to := m[from]]
  }

  function Perform(p: Page, op: Op, io: Io): Page {
    var m := Read(p, io.readable);
    if Writes(m, op) then Store(p, Meaning(m, op), io.accepts) else p
  }

  /** The operation changes nothing. */
  predicate Refuses(m: Themes, op: Op) {
    match op
    case Write(id, _) => id == "" || |id| > 128
    case Clear(id) => id !in m
    case Move(from, to) => from == "" || to == "" || from == to || from !in m || m[from] == ""
  }

  /** `m'` is `m` with the one workspace written, cleared or moved. */
  ghost predicate Changed(m: Themes, m': Themes, op: Op) {
    match op
    case Write(id, theme) =>
      id in m' && m'[id] == theme && forall k :: k != id ==> (k in m' <==> k in m) && (k in m ==> m'[k] == m[k])
    case Clear(id) => id !in m' && forall k :: k != id ==> (k in m' <==> k in m) && (k in m ==> m'[k] == m[k])
    case Move(from, to) =>
      && from in m && to in m' && m'[to] == m[from] && from !in m'
      && forall k :: k != from && k != to ==> (k in m' <==> k in m) && (k in m ==> m'[k] == m[k])
  }

  /**
    An operation either leaves the page as it is, or leaves a copy with its one change, which counts
    as persisted exactly when storage accepted it; storage then holds the copy and is otherwise untouched.
    */
  lemma OperationOnPage(p: Page, op: Op, io: Io)
    ensures var m, after := Read(p, io.readable), Perform(p, op, io);
      && after.present == p.present
      && (Refuses(m, op) ==> after == p)
      && (!Refuses(m, op) ==>
            && after.session.Some? && Changed(m, after.session.value.value, op)
            && (after.session.value.persisted <==> p.present && io.accepts)
            && (if p.present && io.accepts then after.cell == AsEntries(after.session.value.value) else after.cell == p.cell))
  {
  }

  /** A move keeps to ids that storage reads back. */
  predicate KeepsIdsShort(op: Op) {
    op.Move? ==> |op.to| <= 128
  }

  // ---------------------------------------------------------------------------------------
  // Reads follow writes
  // ---------------------------------------------------------------------------------------

  datatype Call = Call(op: Op, io: Io)

  function Run(p: Page, calls: seq<Call>): Page {
    if calls == [] then p
    else
      var last := calls[|calls| - 1];
      Perform(Run(p, calls[..|calls| - 1]), last.op, last.io)
  }

  /** The map the calls mean: what the first write found, then every write, clear and move since. */
  function Logical(p: Page, calls: seq<Call>): Option<Themes> {
    if calls == [] then None
    else
      var last := calls[|calls| - 1];
      var before := Logical(p, calls[..|calls| - 1]);
      if before.Some? then Some(Meaning(before.value, last.op))
      else
        var found := Read(p, last.io.readable);
        if Writes(found, last.op) then Some(Meaning(found, last.op)) else None
  }

  /** The page is up to date with the map `m`. */
  predicate InStep(p: Page, m: Themes) {
    && (forall id :: id in m ==> ValidId(id))
    && p.session.Some? && p.session.value.value == m
    && (p.session.value.persisted ==> p.present && p.cell == AsEntries(m))
  }

  lemma EntriesReadBack(m: Themes)
    requires forall id :: id in m ==> ValidId(id)
    ensures ThemesIn(AsEntries(m)) == m
  {
  }

  lemma InStepReads(p: Page, m: Themes, readable: bool)
    requires InStep(p, m)
    ensures Read(p, readable) == m
  {
    EntriesReadBack(m);
  }

  lemma PerformStaysInStep(p: Page, m: Themes, op: Op, io: Io)
    requires InStep(p, m) && KeepsIdsShort(op)
    ensures InStep(Perform(p, op, io), Meaning(m, op))
  {
    InStepReads(p, m, io.readable);
  }

  lemma FirstWriteIsInStep(p: Page, op: Op, io: Io)
    requires p.session.None? && KeepsIdsShort(op)
    ensures var found := Read(p, io.readable);
      if Writes(found, op) then InStep(Perform(p, op, io), Meaning(found, op)) else Perform(p, op, io) == p
  {
  }

  /**
    From the first write on, whatever storage accepted, rejected or refused to show, every read
    returns the map of all writes, clears and moves. Until then the page is untouched.
    */
  lemma {:induction false} ReadsFollowWrites(p: Page, calls: seq<Call>, readable: bool)
    requires p.session.None? && forall i :: 0 <= i < |calls| ==> KeepsIdsShort(calls[i].op)
    ensures var m := Logical(p, calls);
      if m.Some? then InStep(Run(p, calls), m.value) && Read(Run(p, calls), readable) == m.value else Run(p, calls) == p
  {
    if calls != [] {
      var front, last := calls[..|calls| - 1], calls[|calls| - 1];
      ReadsFollowWrites(p, front, readable);
      var before := Logical(p, front);
      if before.Some? {
        PerformStaysInStep(Run(p, front), before.value, last.op, last.io);
      } else {
        FirstWriteIsInStep(p, last.op, last.io);
      }
      if Logical(p, calls).Some? {
        InStepReads(Run(p, calls), Logical(p, calls).value, readable);
      }
    }
  }

  /** What a reload reads. */
  function Reloaded(p: Page): Themes {
    Read(p.(session := None), true)
  }

  /**
    An accepted write stores everything, also what was rejected before it; a rejected write
    leaves storage as it was.
    */
  lemma AcceptedWriteCatchesUp(p: Page, m: Themes, op: Op, io: Io)
    requires InStep(p, m) && KeepsIdsShort(op) && Writes(m, op)
    ensures p.present && io.accepts ==> Reloaded(Perform(p, op, io)) == Meaning(m, op)
    ensures !(p.present && io.accepts) ==> Reloaded(Perform(p, op, io)) == Reloaded(p)
  {
    InStepReads(p, m, io.readable);
    PerformStaysInStep(p, m, op, io);
    EntriesReadBack(Meaning(m, op));
  }

  /** A move is read back exactly when its target is short enough, or the copy still answers. */
  lemma MoveIsReadBackIff(p: Page, m: Themes, from: string, to: string, io: Io, readable: bool)
    requires InStep(p, m) && Writes(m, Move(from, to))
    ensures Read(Perform(p, Move(from, to), io), readable) == Meaning(m, Move(from, to))
      <==> |to| <= 128 || !p.present || !io.accepts || !readable
  {
    InStepReads(p, m, io.readable);
    var after := Meaning(m, Move(from, to));
    if |to| <= 128 {
      EntriesReadBack(after);
    } else {
      assert to in after && to !in ThemesIn(AsEntries(after));
    }
  }

  /** The first write of a page keeps the other stored themes exactly when it could read them. */
  lemma FirstWriteKeepsOthersIff(p: Page, id: string, theme: string, io: Io)
    requires p.present && p.session.None? && ValidId(id) && io.accepts
    ensures Reloaded(Perform(p, Write(id, theme), io)) == Reloaded(p)[id := theme]
      <==> io.readable || Reloaded(p).Keys <= {id}
  {
    var found := Read(p, io.readable);
    EntriesReadBack(found[id := theme]);
    if !io.readable {
      assert Reloaded(p)[id := theme].Keys == Reloaded(p).Keys + {id};
      assert (map[id := theme]).Keys == {id};
      if Reloaded(p).Keys <= {id} {
        assert Reloaded(p)[id := theme] == map[id := theme];
      }
    }
  }

  // ---------------------------------------------------------------------------------------
  // The device default and resolution
  // ---------------------------------------------------------------------------------------

  datatype Catalogue = Catalogue(ids: set<string>, legacy: map<string, string>, fallback: string)

  ghost predicate WellFormed(c: Catalogue) {
    && c.fallback in c.ids && (forall id :: id in c.ids ==> ValidId(id))
    && (forall id :: id in c.legacy ==> c.legacy[id] in c.ids)
  }

  /** `normalizeThemeId` */
  function Normalize(c: Catalogue, theme: string): string {
    if theme == "" then c.fallback
    else if theme in c.ids then theme
    else if theme in c.legacy then c.legacy[theme]
    else c.fallback
  }

  /** The device default's own key. */
  datatype Device = Device(present: bool, cell: string, session: Option<Copy<string>>)

  /** `readDeviceThemePreference`; an empty cell stands for none. */
  function ReadDevice(c: Catalogue, d: Device, readable: bool): Option<string> {
    if d.session.Some? && !d.session.value.persisted then Some(d.session.value.value)
    else if !d.present then None
    else if !readable then (if d.session.Some? then Some(d.session.value.value) else None)
    else if d.cell != "" && |d.cell| <= 128 then Some(Normalize(c, d.cell))
    else None
  }

  /** `writeDeviceThemePreference` */
  function WriteDevice(d: Device, theme: string, accepts: bool): Device {
    if d.present && accepts then d.(cell := theme, session := Some(Copy(theme, true)))
    else d.(session := Some(Copy(theme, false)))
  }

  /** The last of any mix of accepted and rejected writes is what the device default reads as. */
  lemma DeviceReadsLastWrite(c: Catalogue, d: Device, theme: string, accepts: bool, readable: bool)
    requires WellFormed(c) && theme in c.ids
    ensures ReadDevice(c, WriteDevice(d, theme, accepts), readable) == Some(theme)
  {
  }

  /** `resolveWorkspaceTheme` for the map and device default just read. */
  function Resolve(c: Catalogue, themes: Themes, device: Option<string>, id: string): string {
    if id != "" && id in themes then Normalize(c, themes[id])
    else if device.Some? then device.value
    else c.fallback
  }

  /** What a stored theme id stands for: itself, what replaced it, or the product default. */
  ghost predicate StandsFor(c: Catalogue, stored: string, theme: string) {
    && (stored in c.ids ==> theme == stored)
    && (stored !in c.ids && stored in c.legacy && stored != "" ==> theme == c.legacy[stored])
    && (stored !in c.ids && (stored !in c.legacy || stored == "") ==> theme == c.fallback)
  }

  /** An override comes first, then the device default, then the product default; the empty id has no override. */
  lemma ResolutionOrder(c: Catalogue, themes: Themes, device: Option<string>, id: string)
    requires WellFormed(c)
    ensures id != "" && id in themes ==> StandsFor(c, themes[id], Resolve(c, themes, device, id))
    ensures (id == "" || id !in themes) && device.Some? ==> Resolve(c, themes, device, id) == device.value
    ensures (id == "" || id !in themes) && device.None? ==> Resolve(c, themes, device, id) == c.fallback
  {
  }

  /** A theme of the catalogue that was written for a workspace is the one it resolves to, and only it. */
  lemma WrittenThemeResolves(c: Catalogue, m: Themes, device: Option<string>, id: string, theme: string, other: string)
    requires WellFormed(c) && ValidId(id) && theme in c.ids
    ensures Resolve(c, Meaning(m, Write(id, theme)), device, id) == theme
    ensures other != id ==> Resolve(c, Meaning(m, Write(id, theme)), device, other) == Resolve(c, m, device, other)
  {
  }

  /** What a page without a copy reads: the stored texts under ids of 1 to 128 characters, and a stored default of that length. */
  lemma FirstReads(c: Catalogue, p: Page, d: Device, id: string)
    requires WellFormed(c) && p.present && p.session.None? && d.present && d.session.None?
    ensures id in Read(p, true)
      <==> p.cell.Entries? && id in p.cell.values && 1 <= |id| <= 128 && p.cell.values[id].Theme?
    ensures id in Read(p, true) ==> Read(p, true)[id] == p.cell.values[id].theme
    ensures Read(p, false) == map[] && ReadDevice(c, d, false) == None
    ensures 1 <= |d.cell| <= 128 ==>
      ReadDevice(c, d, true).Some? && StandsFor(c, d.cell, ReadDevice(c, d, true).value)
    ensures !(1 <= |d.cell| <= 128) ==> ReadDevice(c, d, true) == None
  {
  }

  /** Clearing an override sends the workspace back to the device default, and no other workspace. */
  lemma ClearRestoresDefault(c: Catalogue, m: Themes, device: Option<string>, id: string, other: string)
    ensures Resolve(c, Meaning(m, Clear(id)), device, id) == if device.Some? then device.value else c.fallback
    ensures other != id ==> Resolve(c, Meaning(m, Clear(id)), device, other) == Resolve(c, m, device, other)
  {
  }

  /** A move gives the target the moved theme and the origin the default. */
  lemma MoveCarriesTheme(c: Catalogue, m: Themes, device: Option<string>, from: string, to: string, other: string)
    requires Writes(m, Move(from, to))
    ensures var after := Meaning(m, Move(from, to));
      && Resolve(c, after, device, to) == Resolve(c, m, device, from)
      && Resolve(c, after, device, from) == Resolve(c, map[], device, from)
      && (other != from && other != to ==> Resolve(c, after, device, other) == Resolve(c, m, device, other))
  {
  }

  // ---------------------------------------------------------------------------------------
  // The page
  // ---------------------------------------------------------------------------------------

  /** The module variables of the page and the two storage cells behind it. */
  class Preferences {
    const catalogue: Catalogue
    const present: bool
    var mapCell: Cell
    var workspaceMapSession: Option<Copy<Themes>>
    var deviceCell: string
    var deviceThemeSession: Option<Copy<string>>

    /** A page that was just loaded over existing cells. */
    constructor (catalogue: Catalogue, present: bool, mapCell: Cell, deviceCell: string)
      ensures this.catalogue == catalogue
      ensures MapPage() == Page(present, mapCell, None) && DeviceDefault() == Device(present, deviceCell, None)
    {
      this.catalogue, this.present, this.mapCell, this.deviceCell := catalogue, present, mapCell, deviceCell;
      workspaceMapSession, deviceThemeSession := None, None;
    }

    ghost function MapPage(): Page
      reads `mapCell, `workspaceMapSession
    {
      Page(present, mapCell, workspaceMapSession)
    }

    ghost function DeviceDefault(): Device
      reads `deviceCell, `deviceThemeSession
    {
      Device(present, deviceCell, deviceThemeSession)
    }

    method ReadMap(readable: bool) returns (themes: Themes)
      ensures themes == Read(MapPage(), readable)
    {
      if workspaceMapSession.Some? && !workspaceMapSession.value.persisted {
        return workspaceMapSession.value.value;
      }
      if present && !readable {
        return if workspaceMapSession.Some? then workspaceMapSession.value.value else map[];
      }
      if !present || !mapCell.Entries? {
        return map[];
      }
      return ThemesIn(mapCell);
    }

    method WriteMap(themes: Themes, accepts: bool)
      modifies `mapCell, `workspaceMapSession
      ensures MapPage() == Store(old(MapPage()), themes, accepts)
    {
      workspaceMapSession := Some(Copy(themes, false));
      if present && accepts {
        mapCell := AsEntries(themes);
        workspaceMapSession := Some(workspaceMapSession.value.(persisted := true));
      }
    }

    method WriteWorkspaceThemePreference(id: string, theme: string, io: Io)
      modifies `mapCell, `workspaceMapSession
      ensures MapPage() == Perform(old(MapPage()), Write(id, theme), io)
    {
      if id == "" || |id| > 128 {
        return;
      }
      var themes := ReadMap(io.readable);
      WriteMap(themes[id := theme], io.accepts);
    }

    method ClearWorkspaceThemePreference(id: string, io: Io)
      modifies `mapCell, `workspaceMapSession
      ensures MapPage() == Perform(old(MapPage()), Clear(id), io)
    {
      var themes := ReadMap(io.readable);
      if id !in themes {
        return;
      }
      themes := themes - {id};
      WriteMap(themes, io.accepts);
    }

    method MoveWorkspaceThemePreference(from: string, to: string, io: Io)
      modifies `mapCell, `workspaceMapSession
      ensures MapPage() == Perform(old(MapPage()), Move(from, to), io)
    {
      if from == "" || to == "" || from == to {
        return;
      }
      var themes := ReadMap(io.readable);
      if from !in themes || themes[from] == "" {
        return;
      }
      var theme := themes[from];
      themes := themes - {from};
      themes := themes[to := theme];
      WriteMap(themes, io.accepts);
    }

    method ReadDeviceThemePreference(readable: bool) returns (theme: Option<string>)
      ensures theme == ReadDevice(catalogue, DeviceDefault(), readable)
    {
      if deviceThemeSession.Some? && !deviceThemeSession.value.persisted {
        return Some(deviceThemeSession.value.value);
      }
      if present && !readable {
        return if deviceThemeSession.Some? then Some(deviceThemeSession.value.value) else None;
      }
      var stored := if present then deviceCell else "";
      return if stored != "" && |stored| <= 128 then Some(Normalize(catalogue, stored)) else None;
    }

    method WriteDeviceThemePreference(theme: string, accepts: bool)
      modifies `deviceCell, `deviceThemeSession
      ensures DeviceDefault() == WriteDevice(old(DeviceDefault()), theme, accepts)
    {
      deviceThemeSession := Some(Copy(theme, false));
      if present && accepts {
        deviceCell := theme;
        deviceThemeSession := Some(deviceThemeSession.value.(persisted := true));
      }
    }

    method ResolveWorkspaceTheme(id: string, readable: bool) returns (theme: string)
      ensures theme == Resolve(catalogue, Read(MapPage(), readable), ReadDevice(catalogue, DeviceDefault(), readable), id)
    {
      if id != "" {
        var themes := ReadMap(readable);
        if id in themes {
          return Normalize(catalogue, themes[id]);
        }
      }
      var device := ReadDeviceThemePreference(readable);
      return if device.Some? then device.value else catalogue.fallback;
    }
  }
}
