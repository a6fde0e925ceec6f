/**
 What an export writes about itself: inventories, the marker and the recovery record, and the bytes the
 record takes on disk, which have a ceiling.
 */
module ExportRecord {
  const MAX_FILES := 2048
  const MAX_RECORD_BYTES := 4 * 1024 * 1024

  datatype Option<+T> = None | Some(value: T)

  type Path = string

  /** A transaction: the destination's name and the random id, which together name all it puts on disk. */
  datatype Txn = Txn(destination: string, id: string)

  /** A regular file.  Equal `File` values stand for equal size, SHA-256 and executable bit. */
  datatype File = File(data: seq<bv8>, exec: bool)

  type Inventory = map<Path, File>

  datatype Record = Record(path: Path, file: File)

  datatype Marker =
    | Managed(tree: string, allowlist: string, files: seq<Record>)
    | Foreign(raw: string)

  datatype Plan = Plan(tree: string, allowlist: string, files: seq<Record>)

  /** The recovery record: one transaction, its old and its new inventory. */
  datatype Payload = Payload(
    txn: Txn,
    created: bool,
    oldMarker: Option<Marker>,
    newMarker: Marker,
    oldFiles: seq<Record>,
    newFiles: seq<Record>)

  datatype RecoveryFile = Sound(payload: Payload) | Malformed

  // ---------------------------------------------------------------- inventories

  /** Last record wins, the way staging a repeated path overwrites the earlier file. */
  function AsMap(rs: seq<Record>): (m: Inventory)
    ensures m.Keys == set r | r in rs :: r.path
  {
    if rs == [] then map[]
    else
      var last := |rs| - 1;
      AsMap(rs[..last])[rs[last].path := rs[last].file]
  }

  predicate Distinct(rs: seq<Record>) {
    forall i, j :: 0 <= i < j < |rs| ==> rs[i].path != rs[j].path
  }

  predicate Has(m: Inventory, q: Path, f: File) {
    q in m && m[q] == f
  }

  lemma {:induction false} AsMapHolds(rs: seq<Record>, i: nat)
    requires Distinct(rs) && i < |rs|
    ensures Has(AsMap(rs), rs[i].path, rs[i].file)
  {
    var last := |rs| - 1;
    if i < last {
      AsMapHolds(rs[..last], i);
    }
  }

  lemma {:induction false} AsMapSize(rs: seq<Record>)
    requires Distinct(rs)
    ensures |AsMap(rs)| == |rs|
  {
    if rs != [] {
      var last := |rs| - 1;
      AsMapSize(rs[..last]);
      assert AsMap(rs).Keys == AsMap(rs[..last]).Keys + {rs[last].path};
    }
  }

  function Restrict(m: Inventory, s: set<Path>): Inventory {
    map q | q in m && q in s :: m[q]
  }

  // ---------------------------------------------------------------- the record's bytes

  /** `json.dumps` with `ensure_ascii`: two bytes for a short escape, six for `\uXXXX`, two of these beyond the BMP. */
  function CharBytes(c: char): nat {
    if c in ['"', '\\', '\n', '\r', '\t', 8 as char, 12 as char] then 2
    else if ' ' <= c <= '~' then 1
    else if c as int < 0x1_0000 then 6
    else 12
  }

  function Escaped(s: string): nat {
    if s == [] then 0 else Escaped(s[..|s| - 1]) + CharBytes(s[|s| - 1])
  }

  function Digits(n: nat): nat {
    if n < 10 then 1 else 1 + Digits(n / 10)
  }

  /** One file in a list: keys, punctuation, mode and digest are 112 bytes, and a comma follows. */
  function EntryBytes(r: Record): nat {
    113 + Digits(|r.file.data|) + Escaped(r.path)
  }

  function EntriesBytes(rs: seq<Record>): nat {
    if rs == [] then 0 else EntriesBytes(rs[..|rs| - 1]) + EntryBytes(rs[|rs| - 1])
  }

  /** A list in brackets, with no comma after its last file. */
  function ListBytes(rs: seq<Record>): nat {
    if rs == [] then 2 else 1 + EntriesBytes(rs)
  }

  /** All but the two lists: the destination's name and the id stand four times each among 338 fixed bytes. */
  function HeadBytes(t: Txn, created: bool, marked: bool): nat {
    338 + 4 * Escaped(t.destination) + 4 * Escaped(t.id) + (if created then 0 else 1) + (if marked then 62 else 0)
  }

  function RecordBytes(p: Payload): nat {
    HeadBytes(p.txn, p.created, p.oldMarker.Some?) + ListBytes(p.oldFiles) + ListBytes(p.newFiles)
  }

  /** The record is within the ceiling, for writing and for loading. */
  predicate Fits(p: Payload) {
    RecordBytes(p) <= MAX_RECORD_BYTES
  }

  function MarkerBytes(plan: Plan): nat {
    97 + Escaped(plan.tree) + Escaped(plan.allowlist) + ListBytes(plan.files)
  }

  /** A marker whose record fits is itself within the ceiling; its two digests have 64 digits at most. */
  lemma MarkerFits(p: Payload, plan: Plan)
    requires Fits(p) && p.newFiles == plan.files && Escaped(plan.tree) <= 64 && Escaped(plan.allowlist) <= 64
    ensures MarkerBytes(plan) <= MAX_RECORD_BYTES
  {
    hide EntriesBytes, Escaped;
  }

  // ---------------------------------------------------------------- the size does not depend on the order

  ghost function Weight(m: Inventory): nat {
    if m == map[] then 0
    else
      assert m.Keys != {};
      var q :| q in m.Keys;
      Weight(m - {q}) + EntryBytes(Record(q, m[q]))
  }

  lemma {:induction false} WeightWithout(m: Inventory, q: Path)
    requires q in m
    ensures Weight(m) == Weight(m - {q}) + EntryBytes(Record(q, m[q]))
    decreases |m|
  {
    hide EntryBytes;
    assert m.Keys != {};
    var x :| x in m.Keys && Weight(m) == Weight(m - {x}) + EntryBytes(Record(x, m[x]));
    if x != q {
      WeightWithout(m - {x}, q);
      WeightWithout(m - {q}, x);
      assert m - {x} - {q} == m - {q} - {x};
    }
  }

  lemma {:induction false} EntriesWeigh(rs: seq<Record>)
    requires Distinct(rs)
    ensures EntriesBytes(rs) == Weight(AsMap(rs))
  {
    hide EntryBytes;
    if rs != [] {
      var most, r := rs[..|rs| - 1], rs[|rs| - 1];
      EntriesWeigh(most);
      assert r.path !in AsMap(most);
      assert AsMap(rs) - {r.path} == AsMap(most);
      WeightWithout(AsMap(rs), r.path);
    }
  }

  ghost function InventoryBytes(m: Inventory): nat {
    if m == map[] then 2 else 1 + Weight(m)
  }

  /** A list takes the bytes of its inventory, whatever its order. */
  lemma ListIsInventory(rs: seq<Record>)
    requires Distinct(rs)
    ensures ListBytes(rs) == InventoryBytes(AsMap(rs))
  {
    EntriesWeigh(rs);
    assert rs != [] ==> rs[0].path in AsMap(rs);
  }
}
