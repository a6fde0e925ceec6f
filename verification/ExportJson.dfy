/**
 The recovery record and the marker as the texts that are written: compact JSON with sorted keys and everything
 outside printable ASCII escaped.  `ExportRecord` counts the characters of these texts.
 */
module ExportJson {
  import opened ExportRecord

  // ---------------------------------------------------------------- numbers and strings

  function Digit(k: nat): char
    requires k < 10
  {
    (48 + k) as char
  }

  function Number(n: nat): string {
    if n < 10 then [Digit(n)] else Number(n / 10) + [Digit(n % 10)]
  }

  function ReadNumber(s: string): int {
    if s == [] then 0 else 10 * ReadNumber(s[..|s| - 1]) + (s[|s| - 1] as int - '0' as int)
  }

  /** A number is written as its decimal digits, without leading zeros. */
  lemma {:induction false} NumberIsDecimal(n: nat)
    ensures ReadNumber(Number(n)) == n && |Number(n)| == Digits(n)
    ensures (forall c :: c in Number(n) ==> '0' <= c <= '9') && (n > 0 ==> Number(n)[0] != '0')
  {
    var s := Number(n);
    if n >= 10 {
      NumberIsDecimal(n / 10);
      assert s[..|s| - 1] == Number(n / 10);
    } else {
      assert s[..0] == "";
    }
  }

  function Hex(k: nat): char
    requires k < 16
  {
    if k < 10 then Digit(k) else (87 + k) as char
  }

  function Unit16(u: nat): string
    requires u < 0x1_0000
  {
    ['\\', 'u', Hex(u / 4096), Hex(u / 256 % 16), Hex(u / 16 % 16), Hex(u % 16)]
  }

  /** Beyond the basic plane a character is written as a surrogate pair. */
  function Escape(c: char): string {
    if c == '"' then "\\\""
    else if c == '\\' then "\\\\"
    else if c == '\n' then "\\n"
    else if c == '\r' then "\\r"
    else if c == '\t' then "\\t"
    else if c == 12 as char then "\\f"
    else if c == 8 as char then "\\b"
    else if ' ' <= c <= '~' then [c]
    else if c as int < 0x1_0000 then Unit16(c as int)
    else
      var v := c as int - 0x1_0000;
      Unit16(0xD800 + v / 0x400) + Unit16(0xDC00 + v % 0x400)
  }

  function EscapeAll(s: string): string {
    if s == [] then "" else EscapeAll(s[..|s| - 1]) + Escape(s[|s| - 1])
  }

  predicate Printable(s: string) {
    forall c :: c in s ==> ' ' <= c <= '~'
  }

  lemma Unit16Bytes(u: nat)
    requires u < 0x1_0000
    ensures |Unit16(u)| == 6 && Printable(Unit16(u))
  {}

  lemma EscapeBytes(c: char)
    ensures |Escape(c)| == CharBytes(c) && Printable(Escape(c))
  {
    hide Unit16;
    if c as int < 0x1_0000 {
      Unit16Bytes(c as int);
    } else {
      var v := c as int - 0x1_0000;
      Unit16Bytes(0xD800 + v / 0x400);
      Unit16Bytes(0xDC00 + v % 0x400);
    }
  }

  lemma {:induction false} EscapedBytes(s: string)
    ensures |EscapeAll(s)| == Escaped(s) && Printable(EscapeAll(s))
  {
    hide Escape, CharBytes;
    if s != [] {
      EscapedBytes(s[..|s| - 1]);
      EscapeBytes(s[|s| - 1]);
    }
  }

  lemma {:induction false} EscapedParts(s: string, t: string)
    ensures Escaped(s + t) == Escaped(s) + Escaped(t)
    decreases |t|
  {
    hide CharBytes;
    if t == [] {
      assert s + t == s;
    } else {
      var k := |t| - 1;
      EscapedParts(s, t[..k]);
      assert (s + t)[..|s + t| - 1] == s + t[..k];
    }
  }

  /** Printable text without quotes and backslashes stands as it is. */
  lemma {:induction false} PlainBytes(s: string)
    requires Printable(s) && '"' !in s && '\\' !in s
    ensures Escaped(s) == |s|
  {
    if s != [] {
      var c := s[|s| - 1];
      assert c in s && ' ' <= c <= '~' && c != '"' && c != '\\';
      var most := s[..|s| - 1];
      forall b | b in most ensures b in s {}
      PlainBytes(most);
    }
  }

  // ---------------------------------------------------------------- the texts

  predicate IsDigest(s: string) {
    |s| == 64 && forall c :: c in s ==> '0' <= c <= '9' || 'a' <= c <= 'f'
  }

  /** SHA-256 of a file's content and of a marker's text. */
  datatype Digests = Digests(file: File -> string, marker: Marker -> string) {
    ghost predicate Valid() {
      (forall f :: IsDigest(file(f))) && forall m :: IsDigest(marker(m))
    }
  }

  function Quote(s: string): string {
    "\"" + EscapeAll(s) + "\""
  }

  function FileText(r: Record, ds: Digests): string {
    "{\"bytes\":" + Number(|r.file.data|)
    + ",\"mode\":" + Quote(if r.file.exec then "100755" else "100644")
    + ",\"path\":" + Quote(r.path)
    + ",\"sha256\":" + Quote(ds.file(r.file)) + "}"
  }

  function Items(rs: seq<Record>, ds: Digests): string {
    if rs == [] then ""
    else
      var k := |rs| - 1;
      (if k == 0 then "" else Items(rs[..k], ds) + ",") + FileText(rs[k], ds)
  }

  function FilesText(rs: seq<Record>, ds: Digests): string {
    "[" + Items(rs, ds) + "]"
  }

  /** The names of a transaction's own files and directories. */
  function OwnName(t: Txn, kind: string): string {
    "." + t.destination + "." + kind + "-" + t.id
  }

  /** The record's members in the order of their keys. */
  function RecordText(p: Payload, ds: Digests): string {
    "{" + NameMembers(p) + "," + ListMembers(p, ds) + "," + LastMembers(p.txn) + "}\n"
  }

  function NameMembers(p: Payload): string {
    "\"backup_name\":" + Quote(OwnName(p.txn, "rollback"))
    + ",\"created_destination\":" + (if p.created then "true" else "false")
    + ",\"destination_name\":" + Quote(p.txn.destination)
    + ",\"managed_by\":" + Quote("imparo-public-export")
    + ",\"marker_temp_name\":" + Quote(OwnName(p.txn, "marker"))
  }

  function ListMembers(p: Payload, ds: Digests): string {
    "\"new_files\":" + FilesText(p.newFiles, ds)
    + ",\"new_marker_sha256\":" + Quote(ds.marker(p.newMarker))
    + ",\"old_files\":" + FilesText(p.oldFiles, ds)
    + ",\"old_marker_sha256\":" + (if p.oldMarker.Some? then Quote(ds.marker(p.oldMarker.value)) else "null")
  }

  function LastMembers(t: Txn): string {
    "\"schema\":" + Number(1)
    + ",\"stage_name\":" + Quote(OwnName(t, "staging"))
    + ",\"transaction\":" + Quote(t.id)
  }

  function MarkerText(plan: Plan, ds: Digests): string {
    "{\"allowlist_sha256\":" + Quote(plan.allowlist)
    + ",\"files\":" + FilesText(plan.files, ds)
    + ",\"managed_by\":" + Quote("imparo-public-export")
    + ",\"schema\":" + Number(1)
    + ",\"source_tree\":" + Quote(plan.tree) + "}\n"
  }

  // ---------------------------------------------------------------- their bytes

  lemma QuoteBytes(s: string)
    ensures |Quote(s)| == 2 + Escaped(s)
  {
    EscapedBytes(s);
  }

  lemma PlainQuote(s: string)
    requires Printable(s) && '"' !in s && '\\' !in s
    ensures |Quote(s)| == 2 + |s|
  {
    PlainBytes(s);
    QuoteBytes(s);
  }

  lemma ManagedBy()
    ensures |Quote("imparo-public-export")| == 22
  {
    PlainQuote("imparo-public-export");
  }

  lemma FileBytes(r: Record, ds: Digests)
    requires ds.Valid()
    ensures |FileText(r, ds)| + 1 == EntryBytes(r)
  {
    hide Quote, Number, Escaped, Digits;
    PlainQuote(if r.file.exec then "100755" else "100644");
    PlainQuote(ds.file(r.file));
    QuoteBytes(r.path);
    NumberIsDecimal(|r.file.data|);
  }

  lemma {:induction false} ItemsBytes(rs: seq<Record>, ds: Digests)
    requires ds.Valid() && rs != []
    ensures |Items(rs, ds)| + 1 == EntriesBytes(rs)
  {
    hide FileText, EntryBytes;
    var k := |rs| - 1;
    FileBytes(rs[k], ds);
    if k > 0 {
      ItemsBytes(rs[..k], ds);
    }
  }

  lemma FilesBytes(rs: seq<Record>, ds: Digests)
    requires ds.Valid()
    ensures |FilesText(rs, ds)| == ListBytes(rs)
  {
    if rs != [] {
      ItemsBytes(rs, ds);
    }
  }

  lemma OwnNameBytes(t: Txn, kind: string)
    requires Printable(kind) && '"' !in kind && '\\' !in kind
    ensures |Quote(OwnName(t, kind))| == 5 + Escaped(t.destination) + |kind| + Escaped(t.id)
  {
    hide EscapeAll;
    PlainBytes(kind);
    PlainBytes(".");
    PlainBytes("-");
    EscapedParts(".", t.destination);
    EscapedParts("." + t.destination, ".");
    EscapedParts("." + t.destination + ".", kind);
    EscapedParts("." + t.destination + "." + kind, "-");
    EscapedParts("." + t.destination + "." + kind + "-", t.id);
    QuoteBytes(OwnName(t, kind));
  }

  lemma KindsArePlain(kind: string)
    requires kind == "rollback" || kind == "marker" || kind == "staging"
    ensures Printable(kind) && '"' !in kind && '\\' !in kind
  {}

  lemma NamesBytes(p: Payload)
    ensures |NameMembers(p)| == 143 + (if p.created then 0 else 1) + 3 * Escaped(p.txn.destination) + 2 * Escaped(p.txn.id)
  {
    hide Quote, OwnName, Escaped, Printable;
    KindsArePlain("rollback");
    KindsArePlain("marker");
    OwnNameBytes(p.txn, "rollback");
    OwnNameBytes(p.txn, "marker");
    QuoteBytes(p.txn.destination);
    ManagedBy();
  }

  lemma ListsBytes(p: Payload, ds: Digests)
    requires ds.Valid()
    ensures |ListMembers(p, ds)| == 137 + (if p.oldMarker.Some? then 62 else 0) + ListBytes(p.newFiles) + ListBytes(p.oldFiles)
  {
    hide Quote, FilesText, ListBytes;
    PlainQuote(ds.marker(p.newMarker));
    if p.oldMarker.Some? {
      PlainQuote(ds.marker(p.oldMarker.value));
    }
    FilesBytes(p.newFiles, ds);
    FilesBytes(p.oldFiles, ds);
  }

  lemma LastBytes(t: Txn)
    ensures |LastMembers(t)| == 53 + Escaped(t.destination) + 2 * Escaped(t.id)
  {
    hide Quote, OwnName, Escaped, Printable;
    KindsArePlain("staging");
    OwnNameBytes(t, "staging");
    QuoteBytes(t.id);
  }

  /** The bytes counted against the ceiling are those of the record's text. */
  lemma RecordBytesAreText(p: Payload, ds: Digests)
    requires ds.Valid()
    ensures |RecordText(p, ds)| == RecordBytes(p)
  {
    hide NameMembers, ListMembers, LastMembers, ListBytes, Escaped;
    NamesBytes(p);
    ListsBytes(p, ds);
    LastBytes(p.txn);
  }

  /** And so for the marker. */
  lemma MarkerBytesAreText(plan: Plan, ds: Digests)
    requires ds.Valid()
    ensures |MarkerText(plan, ds)| == MarkerBytes(plan)
  {
    hide Quote, FilesText, ListBytes, Escaped;
    QuoteBytes(plan.allowlist);
    QuoteBytes(plan.tree);
    ManagedBy();
    FilesBytes(plan.files, ds);
  }
}
