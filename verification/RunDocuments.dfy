/**
 The frozen documents of a run: every slot is checked by itself, and identities and paths are compared
 across all slots.
 */
module RunDocuments {
  import opened Wrappers
  import opened Sequences
  import Text

  datatype Frozen = Frozen(id: string, folder: string, name: string, mime: string, size: int, hash: string)

  datatype Snapshot = Snapshot(version: string, project: string, key: string, mode: string,
                               documents: seq<Frozen>, checksum: string)

  datatype Slot = Slot(key: string, status: string, snapshot: Option<Snapshot>)

  datatype Source = Plain(text: string) | Summary(provider: Option<string>, capability: Option<string>)

  const MAX_DOCUMENTS: nat := 5000
  const MAX_SAFE_INTEGER: int := 9007199254740991
  const CAPABILITIES := {"document.read/v1", "document.convert/v1", "document.inspect/v1", "document.list/v1"}

  // ---- One document -----------------------------------------------------------------------

  predicate IsUuid(s: string) {
    |s| == 36 && forall i | 0 <= i < 36 :: if i in {8, 13, 18, 23} then s[i] == '-' else Text.IsHexDigit(s[i])
  }

  function LowerChar(c: char): char {
    if 'A' <= c <= 'Z' then c - 'A' + 'a' else c
  }

  function Lower(s: string): string {
    seq(|s|, i requires 0 <= i < |s| => LowerChar(s[i]))
  }

  predicate IsChecksum(s: string) {
    Text.IsDigest(s, Text.SHA)
  }

  function Path(d: Frozen): string {
    if d.folder != [] then d.folder + "/" + d.name else d.name
  }

  /** `s.split('/')` */
  function SplitSlash(s: string): seq<string> {
    var n := Text.PartLength(s, '/');
    if n >= |s| then [s] else [s[..n]] + SplitSlash(s[n + 1..])
  }

  /** `unprintable` is the class of control, format, surrogate, private, unassigned and separator characters. */
  predicate IsPath(path: string, unprintable: char -> bool) {
    && (forall i | 0 <= i < |path| :: path[i] != '\\' && !unprintable(path[i]))
    && (forall i | 0 <= i < |SplitSlash(path)| :: SplitSlash(path)[i] !in {"", ".", "..", ".skillmind"})
  }

  /** s[i..j] holds no slash and borders on a slash or an end of s on either side. */
  ghost predicate IsPart(s: string, i: int, j: int) {
    && 0 <= i <= j <= |s| && (forall k | i <= k < j :: s[k] != '/')
    && (i == 0 || s[i - 1] == '/') && (j == |s| || s[j] == '/')
  }

  lemma {:induction false} FirstPart(s: string)
    ensures var n := Text.PartLength(s, '/');
            n <= |s| && (forall k | 0 <= k < n :: s[k] != '/') && (n < |s| ==> s[n] == '/')
  {
    if s != [] && s[0] != '/' {
      FirstPart(s[1..]);
      assert forall k | 1 <= k < |s| :: s[k] == s[1..][k - 1];
    }
  }

  /** A part is the first one, or lies behind the first slash. */
  lemma PartsLater(s: string, n: nat, i: int, j: int)
    requires n < |s| && (forall k | 0 <= k < n :: s[k] != '/') && s[n] == '/'
    ensures IsPart(s, i, j) <==> (i == 0 && j == n) || (i > n && j > n && IsPart(s[n + 1..], i - n - 1, j - n - 1))
  {
    var rest := s[n + 1..];
    assert forall k | n < k < |s| :: s[k] == rest[k - n - 1];
    if i > n && j > n && IsPart(rest, i - n - 1, j - n - 1) {
      forall k | i <= k < j ensures s[k] != '/' {
        assert rest[k - n - 1] != '/';
      }
    }
    if IsPart(s, i, j) && i > n {
      forall k | i - n - 1 <= k < j - n - 1 ensures rest[k] != '/' {
        assert s[k + n + 1] != '/';
      }
    }
  }

  ghost predicate HasPart(s: string, part: string) {
    exists i, j :: IsPart(s, i, j) && s[i..j] == part
  }

  lemma WholePart(s: string, part: string)
    requires forall k | 0 <= k < |s| :: s[k] != '/'
    ensures HasPart(s, part) <==> part == s
  {
    assert IsPart(s, 0, |s|) && s[0..|s|] == s;
    assert forall i, j | IsPart(s, i, j) :: i == 0 && j == |s|;
  }

  lemma LaterPart(s: string, n: nat, part: string)
    requires n < |s| && (forall k | 0 <= k < n :: s[k] != '/') && s[n] == '/'
    ensures HasPart(s, part) <==> part == s[..n] || HasPart(s[n + 1..], part)
  {
    var rest := s[n + 1..];
    PartsLater(s, n, 0, n);
    assert s[0..n] == s[..n];
    if i, j :| IsPart(s, i, j) && s[i..j] == part {
      PartsLater(s, n, i, j);
      if i > n {
        assert rest[i - n - 1..j - n - 1] == part;
      }
    }
    if i, j :| IsPart(rest, i, j) && rest[i..j] == part {
      PartsLater(s, n, i + n + 1, j + n + 1);
      assert s[i + n + 1..j + n + 1] == part;
    }
  }

  /** Splitting at slashes gives exactly the parts. */
  lemma {:induction false} SplitExact(s: string, part: string)
    ensures part in SplitSlash(s) <==> HasPart(s, part)
  {
    var n := Text.PartLength(s, '/');
    FirstPart(s);
    if n >= |s| {
      WholePart(s, part);
    } else {
      SplitExact(s[n + 1..], part);
      LaterPart(s, n, part);
      assert SplitSlash(s) == [s[..n]] + SplitSlash(s[n + 1..]);
    }
  }

  /** A path is accepted exactly when nothing between its slashes is empty, leads upward or is reserved. */
  lemma PathExact(path: string, unprintable: char -> bool)
    ensures IsPath(path, unprintable)
       <==> && (forall c | c in path :: c != '\\' && !unprintable(c))
            && forall i, j | IsPart(path, i, j) ::
                 path[i..j] != "" && path[i..j] != "." && path[i..j] != ".." && path[i..j] != ".skillmind"
  {
    var parts := SplitSlash(path);
    forall i, j | IsPart(path, i, j) ensures path[i..j] in parts {
      SplitExact(path, path[i..j]);
    }
    forall k | 0 <= k < |parts| ensures exists i, j :: IsPart(path, i, j) && path[i..j] == parts[k] {
      SplitExact(path, parts[k]);
    }
  }

  predicate IsFrozen(d: Frozen, unprintable: char -> bool) {
    && IsUuid(d.id) && d.name != [] && d.mime != [] && 0 <= d.size <= MAX_SAFE_INTEGER && IsChecksum(d.hash)
    && '/' !in d.name && IsPath(Path(d), unprintable)
  }

  /** A UUID: five groups of hexadecimal digits of either case, 8-4-4-4-12, with dashes between them. */
  lemma UuidExact(s: string)
    ensures IsUuid(s)
       <==> && |s| == 36 && s[8] == '-' && s[13] == '-' && s[18] == '-' && s[23] == '-'
            && forall i | 0 <= i < 8 || 9 <= i < 13 || 14 <= i < 18 || 19 <= i < 23 || 24 <= i < 36 ::
                 '0' <= s[i] <= '9' || 'a' <= s[i] <= 'f' || 'A' <= s[i] <= 'F'
  {
  }

  lemma LowerExact(c: char)
    ensures if 'A' <= c <= 'Z' then LowerChar(c) as int == c as int + 32 else LowerChar(c) == c
  {
  }

  lemma ChecksumExact(s: string)
    ensures IsChecksum(s)
       <==> |s| == 71 && s[..7] == "sha256:" && forall i | 7 <= i < 71 :: '0' <= s[i] <= '9' || 'a' <= s[i] <= 'f'
  {
    if |s| == 71 && s[..7] == "sha256:" {
      assert s == s[..7] + s[7..];
    }
  }

  // ---- One slot ---------------------------------------------------------------------------

  function LowerIds(ds: seq<Frozen>): seq<string> {
    seq(|ds|, i requires 0 <= i < |ds| => Lower(ds[i].id))
  }

  function Paths(ds: seq<Frozen>): seq<string> {
    seq(|ds|, i requires 0 <= i < |ds| => Path(ds[i]))
  }

  predicate Before(s: string, t: string) {
    Text.Leq(s, t) && s != t
  }

  predicate IsSnapshot(s: Snapshot, project: string, key: string, unprintable: char -> bool) {
    && s.version == "v1" && s.project == project && IsUuid(s.project) && s.key == key
    && s.mode in {"SINGLE", "SET", "ALL"} && IsChecksum(s.checksum)
    && 1 <= |s.documents| <= MAX_DOCUMENTS
    && (forall d | d in s.documents :: IsFrozen(d, unprintable))
    && (s.mode == "SINGLE" ==> |s.documents| == 1) && (s.mode == "SET" ==> |s.documents| >= 2)
    && (forall i | 0 < i < |s.documents| :: Before(LowerIds(s.documents)[i - 1], LowerIds(s.documents)[i]))
    && AllDifferent(Paths(s.documents))
  }

  predicate ReadsDocuments(source: Source) {
    source.Summary? && source.provider == Some("project-documents")
    && source.capability.Some? && source.capability.value in CAPABILITIES
  }

  /** A slot on its own: unknown and damaged ones carry nothing, frozen ones a valid snapshot. */
  predicate IsSlot(slot: Slot, project: string, sources: map<string, Source>, unprintable: char -> bool) {
    && slot.key in sources
    && match slot.snapshot
       case None => slot.status in {"LEGACY_UNAVAILABLE", "INVALID"}
       case Some(s) =>
         slot.status == "FROZEN" && IsSnapshot(s, project, slot.key, unprintable) && ReadsDocuments(sources[slot.key])
  }

  /** Ids in strictly ascending order of their lower-case spelling: the first difference decides. */
  ghost predicate Ascend(a: Frozen, b: Frozen) {
    exists k | 0 <= k < |a.id| && k < |b.id| :: Lower(a.id)[..k] == Lower(b.id)[..k] && Lower(a.id)[k] < Lower(b.id)[k]
  }

  lemma BeforeExact(s: string, t: string)
    requires |s| == |t|
    ensures Before(s, t) <==> exists k | 0 <= k < |s| && k < |t| :: s[..k] == t[..k] && s[k] < t[k]
  {
    Text.LeqExact(s, t);
  }

  lemma AscendExact(ds: seq<Frozen>)
    requires forall d | d in ds :: IsUuid(d.id)
    ensures (forall i | 0 < i < |ds| :: Before(LowerIds(ds)[i - 1], LowerIds(ds)[i]))
       <==> forall i | 0 < i < |ds| :: Ascend(ds[i - 1], ds[i])
  {
    forall i | 0 < i < |ds| ensures Before(LowerIds(ds)[i - 1], LowerIds(ds)[i]) <==> Ascend(ds[i - 1], ds[i]) {
      assert ds[i - 1] in ds && ds[i] in ds;
      BeforeExact(LowerIds(ds)[i - 1], LowerIds(ds)[i]);
    }
  }

  lemma PathsDifferExact(ds: seq<Frozen>)
    ensures AllDifferent(Paths(ds)) <==> forall i, j | 0 <= i < j < |ds| :: Path(ds[i]) != Path(ds[j])
  {
    var paths := Paths(ds);
    assert |paths| == |ds| && forall i | 0 <= i < |ds| :: paths[i] == Path(ds[i]);
  }

  /** A document: a UUID, a named file with a type, a size and a checksum, at an acceptable path. */
  lemma DocumentExact(d: Frozen, unprintable: char -> bool)
    ensures IsFrozen(d, unprintable)
       <==> && IsUuid(d.id) && d.name != "" && d.mime != "" && 0 <= d.size <= 9007199254740991 && IsChecksum(d.hash)
            && (forall c | c in d.name :: c != '/')
            && IsPath(if d.folder == "" then d.name else d.folder + "/" + d.name, unprintable)
  {
  }

  /** A frozen snapshot: as many documents as its mode allows, ids ascending, no path twice. */
  lemma SnapshotExact(s: Snapshot, project: string, key: string, unprintable: char -> bool)
    ensures IsSnapshot(s, project, key, unprintable)
       <==> && s.version == "v1" && s.project == project && IsUuid(project) && s.key == key && IsChecksum(s.checksum)
            && (|| (s.mode == "SINGLE" && |s.documents| == 1)
                || (s.mode == "SET" && 2 <= |s.documents| <= 5000)
                || (s.mode == "ALL" && 1 <= |s.documents| <= 5000))
            && (forall d | d in s.documents :: IsFrozen(d, unprintable))
            && (forall i | 0 < i < |s.documents| :: Ascend(s.documents[i - 1], s.documents[i]))
            && forall i, j | 0 <= i < j < |s.documents| :: Path(s.documents[i]) != Path(s.documents[j])
  {
    PathsDifferExact(s.documents);
    if forall d | d in s.documents :: IsFrozen(d, unprintable) {
      AscendExact(s.documents);
    }
  }

  /** A slot: of a declared source, and either without a snapshot, or frozen over a source that reads documents. */
  lemma SlotExact(slot: Slot, project: string, sources: map<string, Source>, unprintable: char -> bool)
    ensures IsSlot(slot, project, sources, unprintable)
       <==> && slot.key in sources
            && if slot.snapshot.None? then slot.status == "LEGACY_UNAVAILABLE" || slot.status == "INVALID"
               else && slot.status == "FROZEN" && IsSnapshot(slot.snapshot.value, project, slot.key, unprintable)
                    && exists c |
                         c in ["document.read/v1", "document.convert/v1", "document.inspect/v1", "document.list/v1"] ::
                         sources[slot.key] == Summary(Some("project-documents"), Some(c))
  {
  }

  // ---- All slots --------------------------------------------------------------------------

  function Keys(slots: seq<Slot>): seq<string> {
    seq(|slots|, i requires 0 <= i < |slots| => slots[i].key)
  }

  function DocumentsOf(slot: Slot): seq<Frozen> {
    if slot.snapshot.Some? then slot.snapshot.value.documents else []
  }

  function Documents(slots: seq<Slot>): seq<Frozen> {
    if slots == [] then [] else Documents(slots[..|slots| - 1]) + DocumentsOf(slots[|slots| - 1])
  }

  ghost predicate Agree(d: Frozen, e: Frozen) {
    (d.id == e.id ==> d == e) && (Path(d) == Path(e) ==> d.id == e.id)
  }

  /** One id, one document; one path, one id. */
  ghost predicate Consistent(ds: seq<Frozen>) {
    forall d, e | d in ds && e in ds :: Agree(d, e)
  }

  ghost predicate IsRun(slots: seq<Slot>, project: string, sources: map<string, Source>, unprintable: char -> bool) {
    && Distinct(Keys(slots)) && (forall s | s in slots :: IsSlot(s, project, sources, unprintable))
    && Consistent(Documents(slots))
  }

  /** The two maps hold exactly what the documents read so far say. */
  ghost predicate Indexed(ds: seq<Frozen>, documents: map<string, Frozen>, paths: map<string, string>) {
    && (forall d | d in ds :: d.id in documents && documents[d.id] == d && Path(d) in paths && paths[Path(d)] == d.id)
    && (forall id | id in documents :: documents[id] in ds && documents[id].id == id)
    && (forall p | p in paths :: paths[p] in documents && Path(documents[paths[p]]) == p)
  }

  lemma IndexedIsConsistent(ds: seq<Frozen>, documents: map<string, Frozen>, paths: map<string, string>)
    requires Indexed(ds, documents, paths)
    ensures Consistent(ds)
  {
  }

  predicate Conflicts(document: Frozen, documents: map<string, Frozen>, paths: map<string, string>) {
    || (document.id in documents && documents[document.id] != document)
    || (Path(document) in paths && paths[Path(document)] != document.id)
  }

  lemma ConflictIsInconsistent(ds: seq<Frozen>, documents: map<string, Frozen>, paths: map<string, string>, d: Frozen)
    requires Indexed(ds, documents, paths)
    ensures Conflicts(d, documents, paths) <==> exists e :: e in ds && !(Agree(d, e) && Agree(e, d))
  {
    if d.id in documents && documents[d.id] != d {
      assert documents[d.id] in ds && !Agree(d, documents[d.id]);
    }
    if Path(d) in paths && paths[Path(d)] != d.id {
      var e := documents[paths[Path(d)]];
      assert e in ds && !Agree(d, e);
    }
  }

  lemma IndexedNext(ds: seq<Frozen>, documents: map<string, Frozen>, paths: map<string, string>, d: Frozen)
    requires Indexed(ds, documents, paths) && !Conflicts(d, documents, paths)
    ensures Indexed(ds + [d], documents[d.id := d], paths[Path(d) := d.id])
  {
    forall e | e in ds + [d] ensures e == d || e in ds {
    }
  }

  lemma ConflictSpoils(ds: seq<Frozen>, all: seq<Frozen>, documents: map<string, Frozen>, paths: map<string, string>,
                       d: Frozen)
    requires Indexed(ds, documents, paths) && Conflicts(d, documents, paths)
    requires d in all && forall e | e in ds :: e in all
    ensures !Consistent(all)
  {
    ConflictIsInconsistent(ds, documents, paths, d);
    var e :| e in ds && !(Agree(d, e) && Agree(e, d));
    assert e in all && d in all;
  }

  /** The inner loop over the documents of one snapshot. */
  method AddDocuments(known: seq<Frozen>, added: seq<Frozen>, before: map<string, Frozen>,
                      pathsBefore: map<string, string>)
      returns (ok: bool, documents: map<string, Frozen>, paths: map<string, string>)
    requires Indexed(known, before, pathsBefore)
    ensures ok <==> Consistent(known + added)
    ensures ok ==> Indexed(known + added, documents, paths)
  {
    ok, documents, paths := true, before, pathsBefore;
    var i := 0;
    assert known + added[..0] == known;
    while i < |added|
      invariant 0 <= i <= |added| && ok
      invariant Indexed(known + added[..i], documents, paths)
    {
      var document := added[i];
      ghost var seen := known + added[..i];
      var path := Path(document);
      if Conflicts(document, documents, paths) {
        ConflictSpoils(seen, known + added, documents, paths, document);
        return false, documents, paths;
      }
      IndexedNext(seen, documents, paths, document);
      assert known + added[..i + 1] == seen + [document];
      documents := documents[document.id := document];
      paths := paths[path := document.id];
      i := i + 1;
    }
    assert known + added[..i] == known + added;
    IndexedIsConsistent(known + added, documents, paths);
  }

  /** `isRunDocumentSnapshots` on a list of slots. */
  method IsRunDocumentSnapshots(slots: seq<Slot>, project: string, sources: map<string, Source>,
                                unprintable: char -> bool)
      returns (ok: bool)
    ensures ok <==> IsRun(slots, project, sources, unprintable)
  {
    var keys: set<string> := {};
    var documents: map<string, Frozen>, paths: map<string, string> := map[], map[];
    var i := 0;
    while i < |slots|
      invariant 0 <= i <= |slots|
      invariant keys == Elements(Keys(slots[..i])) && Distinct(Keys(slots[..i]))
      invariant forall s | s in slots[..i] :: IsSlot(s, project, sources, unprintable)
      invariant Indexed(Documents(slots[..i]), documents, paths)
    {
      var slot := slots[i];
      assert slot in slots;
      KeysNext(slots, i);
      if slot.key in keys || slot.key !in sources {
        return false;
      }
      keys := keys + {slot.key};
      if !IsSlot(slot, project, sources, unprintable) {
        return false;
      }
      var ok', known, at := AddDocuments(Documents(slots[..i]), DocumentsOf(slot), documents, paths);
      DocumentsNext(slots, i);
      if !ok' {
        return false;
      }
      documents, paths := known, at;
      i := i + 1;
    }
    assert slots[..i] == slots;
    IndexedIsConsistent(Documents(slots), documents, paths);
    return true;
  }

  lemma KeysNext(slots: seq<Slot>, i: nat)
    requires i < |slots|
    ensures Keys(slots[..i + 1]) == Keys(slots[..i]) + [slots[i].key]
    ensures Elements(Keys(slots[..i + 1])) == Elements(Keys(slots[..i])) + {slots[i].key}
    ensures slots[i].key in Keys(slots[..i]) ==> !Distinct(Keys(slots))
    ensures Distinct(Keys(slots[..i])) && slots[i].key !in Keys(slots[..i]) ==> Distinct(Keys(slots[..i + 1]))
    ensures slots[..i + 1] == slots[..i] + [slots[i]]
  {
    var ks := Keys(slots[..i]);
    assert Keys(slots[..i + 1]) == ks + [slots[i].key];
    if slots[i].key in ks {
      var j :| 0 <= j < i && ks[j] == slots[i].key;
      assert Keys(slots)[j] == Keys(slots)[i];
    }
  }

  lemma {:induction false} DocumentsGrow(slots: seq<Slot>, i: nat)
    requires i <= |slots|
    ensures forall d | d in Documents(slots[..i]) :: d in Documents(slots)
    decreases |slots| - i
  {
    if i == |slots| {
      assert slots[..i] == slots;
    } else {
      DocumentsGrow(slots, i + 1);
      assert slots[..i + 1][..i] == slots[..i];
    }
  }

  lemma DocumentsNext(slots: seq<Slot>, i: nat)
    requires i < |slots|
    ensures Documents(slots[..i + 1]) == Documents(slots[..i]) + DocumentsOf(slots[i])
    ensures Consistent(Documents(slots)) ==> Consistent(Documents(slots[..i + 1]))
  {
    assert slots[..i + 1][..i] == slots[..i];
    DocumentsGrow(slots, i + 1);
  }

  // ---- What an accepted run guarantees ----------------------------------------------------

  lemma LastSlash(folder: string, name: string, other: string, otherName: string)
    requires '/' !in name && '/' !in otherName && folder + "/" + name == other + "/" + otherName
    ensures folder == other && name == otherName
  {
    var s := folder + "/" + name;
    assert s[|folder|] == '/' && s[|other|] == '/';
    assert forall i | |folder| < i < |s| :: s[i] == name[i - |folder| - 1] && s[i] in name;
    assert forall i | |other| < i < |s| :: s[i] == otherName[i - |other| - 1] && s[i] in otherName;
    assert |folder| == |other|;
    assert s[..|folder|] == folder && s[..|other|] == other;
    assert s[|folder| + 1..] == name && s[|other| + 1..] == otherName;
  }

  lemma SlashInPath(d: Frozen)
    requires '/' !in d.name
    ensures '/' in Path(d) <==> d.folder != []
  {
    if d.folder != [] {
      assert Path(d)[|d.folder|] == '/';
    }
  }

  /** A path can be taken apart again: it determines folder and name. */
  lemma PathDetermines(d: Frozen, e: Frozen)
    requires '/' !in d.name && '/' !in e.name && Path(d) == Path(e)
    ensures d.folder == e.folder && d.name == e.name
  {
    SlashInPath(d);
    SlashInPath(e);
    if d.folder != [] {
      LastSlash(d.folder, d.name, e.folder, e.name);
    }
  }

  lemma {:induction false} AllFrozen(slots: seq<Slot>, project: string, sources: map<string, Source>,
                                     unprintable: char -> bool)
    requires forall s | s in slots :: IsSlot(s, project, sources, unprintable)
    ensures forall d | d in Documents(slots) :: IsFrozen(d, unprintable)
  {
    if slots != [] {
      var n := |slots| - 1;
      AllFrozen(slots[..n], project, sources, unprintable);
      assert slots[n] in slots;
    }
  }

  /** Across all slots, id, path, and folder with name each single out one document and its metadata. */
  lemma OneDocumentPerIdentity(slots: seq<Slot>, project: string, sources: map<string, Source>,
                               unprintable: char -> bool, d: Frozen, e: Frozen)
    requires IsRun(slots, project, sources, unprintable) && d in Documents(slots) && e in Documents(slots)
    ensures d.id == e.id <==> d == e
    ensures Path(d) == Path(e) <==> d == e
    ensures d.folder == e.folder && d.name == e.name <==> d == e
  {
    AllFrozen(slots, project, sources, unprintable);
    assert Agree(d, e);
    if Path(d) == Path(e) {
      PathDetermines(d, e);
    }
  }

  // ---- Letter case ------------------------------------------------------------------------

  /** The same UUID, however it is written, is the same document. */
  ghost predicate UuidsAreIdentities(ds: seq<Frozen>) {
    forall d, e | d in ds && e in ds && Lower(d.id) == Lower(e.id) :: d == e
  }

  /** Within a slot letter case is ignored, so a UUID occurs there once, however it is written. */
  lemma SlotUuidsAreIdentities(s: Snapshot, project: string, key: string, unprintable: char -> bool)
    requires IsSnapshot(s, project, key, unprintable)
    ensures UuidsAreIdentities(s.documents)
  {
    var ids := LowerIds(s.documents);
    forall i, j | 0 <= i < j < |ids| ensures ids[i] != ids[j] {
      Increasing(ids, i, j);
    }
    forall d, e | d in s.documents && e in s.documents && Lower(d.id) == Lower(e.id) ensures d == e {
      var i :| 0 <= i < |ids| && s.documents[i] == d;
      var j :| 0 <= j < |ids| && s.documents[j] == e;
      assert ids[i] == ids[j];
    }
  }

  lemma {:induction false} Increasing(ids: seq<string>, i: nat, j: nat)
    requires forall k | 0 < k < |ids| :: Before(ids[k - 1], ids[k])
    requires i < j < |ids|
    ensures Before(ids[i], ids[j])
    decreases j - i
  {
    if i + 1 < j {
      Increasing(ids, i, j - 1);
      Text.LeqTransitive(ids[i], ids[j - 1], ids[j]);
      if ids[i] == ids[j] {
        Text.LeqAntisymmetric(ids[j - 1], ids[j]);
      }
    }
  }

  /** Across slots it is not: there a UUID is an identity exactly when every slot writes it the same way. */
  lemma CaseDecides(slots: seq<Slot>, project: string, sources: map<string, Source>, unprintable: char -> bool)
    requires IsRun(slots, project, sources, unprintable)
    ensures UuidsAreIdentities(Documents(slots))
       <==> forall d, e | d in Documents(slots) && e in Documents(slots) && Lower(d.id) == Lower(e.id) :: d.id == e.id
  {
    var ds := Documents(slots);
    assert forall d, e | d in ds && e in ds :: Agree(d, e);
  }

  function OneDocument(key: string, project: string, document: Frozen): Slot {
    Slot(key, "FROZEN", Some(Snapshot("v1", project, key, "SINGLE", [document], document.hash)))
  }

  lemma PlainPath(c: char, unprintable: char -> bool)
    requires c != '/' && c != '.' && c != '\\' && !unprintable(c)
    ensures IsPath([c], unprintable)
  {
    assert SplitSlash([c]) == [[c]];
  }

  lemma PlainSlot(key: string, project: string, id: string, c: char, hash: string, sources: map<string, Source>,
                  unprintable: char -> bool)
    requires IsUuid(id) && IsUuid(project) && IsChecksum(hash) && key in sources && ReadsDocuments(sources[key])
    requires c != '/' && c != '.' && c != '\\' && !unprintable(c)
    ensures IsSlot(OneDocument(key, project, Frozen(id, "", [c], "text", 0, hash)), project, sources, unprintable)
  {
    PlainPath(c, unprintable);
    assert IsFrozen(Frozen(id, "", [c], "text", 0, hash), unprintable);
  }

  lemma TwoSlots(first: Slot, second: Slot)
    ensures Documents([first, second]) == DocumentsOf(first) + DocumentsOf(second)
    ensures Keys([first, second]) == [first.key, second.key]
  {
    var slots := [first, second];
    assert slots[..1] == [first] && [first][..0] == [];
    assert Documents([]) == [] && Documents([first]) == Documents([first][..0]) + DocumentsOf(first);
  }

  lemma PairConsistent(d: Frozen, e: Frozen)
    requires d.id != e.id && Path(d) != Path(e)
    ensures Consistent([d, e])
  {
    assert forall x | x in [d, e] :: x == d || x == e;
  }

  lemma TwoSlotsRun(first: Slot, second: Slot, d: Frozen, e: Frozen, project: string, sources: map<string, Source>,
                    unprintable: char -> bool)
    requires IsSlot(first, project, sources, unprintable) && IsSlot(second, project, sources, unprintable)
    requires first.key != second.key && DocumentsOf(first) == [d] && DocumentsOf(second) == [e]
    requires d.id != e.id && Path(d) != Path(e)
    ensures IsRun([first, second], project, sources, unprintable) && Documents([first, second]) == [d, e]
  {
    TwoSlots(first, second);
    assert [d] + [e] == [d, e];
    PairConsistent(d, e);
    assert Distinct([first.key, second.key]);
    assert forall s | s in [first, second] :: IsSlot(s, project, sources, unprintable);
  }

  /** Two documents under one UUID, each in a slot of its own. */
  function SplitSlots(id: string, other: string, project: string, hash: string): seq<Slot> {
    [OneDocument("x", project, Frozen(id, "", "a", "text", 0, hash)),
     OneDocument("y", project, Frozen(other, "", "b", "text", 0, hash))]
  }

  function SplitSources(): map<string, Source> {
    var source := Summary(Some("project-documents"), Some("document.read/v1"));
    map["x" := source, "y" := source]
  }

  /** Two slots that write one UUID differently pass as two documents. */
  lemma CaseSplitsIdentity(id: string, other: string, project: string, hash: string, unprintable: char -> bool)
    requires IsUuid(id) && IsUuid(other) && IsUuid(project) && IsChecksum(hash)
    requires id != other && Lower(id) == Lower(other) && !unprintable('a') && !unprintable('b')
    ensures IsRun(SplitSlots(id, other, project, hash), project, SplitSources(), unprintable)
    ensures !UuidsAreIdentities(Documents(SplitSlots(id, other, project, hash)))
  {
    var slots, sources := SplitSlots(id, other, project, hash), SplitSources();
    var d, e := Frozen(id, "", "a", "text", 0, hash), Frozen(other, "", "b", "text", 0, hash);
    PlainSlot("x", project, id, 'a', hash, sources, unprintable);
    PlainSlot("y", project, other, 'b', hash, sources, unprintable);
    TwoSlotsRun(slots[0], slots[1], d, e, project, sources, unprintable);
    assert d in [d, e] && e in [d, e];
  }
}
