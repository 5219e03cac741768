/** Remembered networks: an array shifted in place, against "the last eight distinct SSIDs by recency". */
module WifiCreds {
  import opened Bytes

  const MAX_NETWORKS := 8
  const SSID_MAX := 32
  const PASSWORD_MAX := 64

  datatype Network = Network(ssid: string, password: string)

  function Entry(ssid: string, password: Option<string>): Network {
    Network(Take(SSID_MAX, ssid), Take(PASSWORD_MAX, if password.Some? then password.value else ""))
  }

  /** Position of the first entry with this SSID; the length if there is none. */
  function IndexOf(list: seq<Network>, ssid: string): (i: nat)
    ensures i <= |list|
    ensures i < |list| ==> list[i].ssid == ssid
    ensures forall k :: 0 <= k < i ==> list[k].ssid != ssid
  {
    if list == [] || list[0].ssid == ssid then 0 else 1 + IndexOf(list[1..], ssid)
  }

  /** The list without its first entry for this SSID. */
  function Without(list: seq<Network>, ssid: string): (r: seq<Network>) {
    var i := IndexOf(list, ssid);
    if i < |list| then list[..i] + list[i + 1..] else list
  }

  /** One save: the new entry in front, its older version gone, at most eight kept. */
  function Save(list: seq<Network>, ssid: string, password: Option<string>): seq<Network> {
    Take(MAX_NETWORKS, [Entry(ssid, password)] + Without(list, ssid))
  }

  // ---- The array ----

  class WifiCreds {
    const networks: array<Network>
    var count: int

    ghost predicate Valid()
      reads this
    {
      networks.Length == MAX_NETWORKS && 0 <= count <= MAX_NETWORKS
    }

    ghost function List(): seq<Network>
      reads this, networks
      requires Valid()
    {
      networks[..count]
    }

    constructor ()
      ensures Valid() && List() == [] && fresh(networks)
    {
      networks := new Network[MAX_NETWORKS](_ => Network("", ""));
      count := 0;
    }

    method Get(index: int) returns (r: Option<Network>)
      requires Valid()
      ensures r == if 0 <= index < |List()| then Some(List()[index]) else None
    {
      if index < 0 || index >= count { return None; }
      return Some(networks[index]);
    }

    method Search(ssid: string) returns (i: int)
      requires Valid()
      ensures i == IndexOf(List(), ssid)
    {
      i := 0;
      while i < count && networks[i].ssid != ssid
        invariant 0 <= i <= count
        invariant forall k :: 0 <= k < i ==> networks[k].ssid != ssid
      {
        i := i + 1;
      }
      IndexIs(List(), ssid, i);
    }

    method Find(ssid: string) returns (r: Option<Network>)
      requires Valid()
      ensures r.None? <==> forall k :: 0 <= k < |List()| ==> List()[k].ssid != ssid
      ensures r.Some? ==> r.value.ssid == ssid && IndexOf(List(), ssid) < |List()| && r.value == List()[IndexOf(List(), ssid)]
    {
      var i := Search(ssid);
      if i < count { return Some(networks[i]); }
      return None;
    }

    /** Shifts everything after `existing` down by one. */
    method Delete(existing: int)
      requires Valid() && 0 <= existing < count
      modifies this`count, networks
      ensures Valid() && List() == old(List())[..existing] + old(List())[existing + 1..]
    {
      var i := existing;
      while i < count - 1
        invariant count == old(count) && existing <= i <= count - 1
        invariant forall k :: 0 <= k < count ==>
          networks[k] == if existing <= k < i then old(networks[k + 1]) else old(networks[k])
      {
        networks[i] := networks[i + 1];
        i := i + 1;
      }
      count := count - 1;
    }

    /** Shifts everything up by one, the last entry falling off a full list, and puts `entry` in front. */
    method InsertFront(entry: Network)
      requires Valid()
      modifies this`count, networks
      ensures Valid() && List() == Take(MAX_NETWORKS, [entry] + old(List()))
    {
      var insertCount := if count < MAX_NETWORKS then count else MAX_NETWORKS - 1;
      var i := insertCount;
      while i > 0
        invariant 0 <= i <= insertCount
        invariant forall k :: 0 <= k < MAX_NETWORKS ==>
          networks[k] == if i < k <= insertCount then old(networks[k - 1]) else old(networks[k])
      {
        networks[i] := networks[i - 1];
        i := i - 1;
      }
      networks[0] := entry;
      count := insertCount + 1;
    }

    method SaveNetwork(ssid: string, password: Option<string>)
      requires Valid()
      modifies this`count, networks
      ensures Valid() && List() == Save(old(List()), ssid, password)
      ensures List() != [] && List()[0] == Network(if |ssid| <= 32 then ssid else ssid[..32], PasswordKept(password))
    {
      var entry := Entry(ssid, password);
      var existing := Search(ssid);
      if existing < count {
        Delete(existing);
      }
      InsertFront(entry);
    }
  }

  lemma IndexIs(list: seq<Network>, ssid: string, i: nat)
    requires i <= |list| && (i < |list| ==> list[i].ssid == ssid)
    requires forall k :: 0 <= k < i ==> list[k].ssid != ssid
    ensures IndexOf(list, ssid) == i
  {
  }

  // ---- Whole runs ----

  datatype Request = Request(ssid: string, password: Option<string>)

  function SaveAll(rs: seq<Request>): seq<Network> {
    if rs == [] then [] else
    var r := rs[|rs| - 1];
    Save(SaveAll(rs[..|rs| - 1]), r.ssid, r.password)
  }

  /** The reference: every SSID ever saved, latest first, each with its latest password. */
  function Recent(rs: seq<Request>): seq<Network> {
    if rs == [] then [] else
    var r := rs[|rs| - 1];
    [Entry(r.ssid, r.password)] + Dropping(Recent(rs[..|rs| - 1]), r.ssid)
  }

  function Dropping(list: seq<Network>, ssid: string): seq<Network> {
    if list == [] then []
    else (if list[0].ssid == ssid then [] else [list[0]]) + Dropping(list[1..], ssid)
  }

  predicate Distinct(list: seq<Network>) {
    forall i, j :: 0 <= i < j < |list| ==> list[i].ssid != list[j].ssid
  }

  /** SSIDs of at most 32 bytes, which is all that the standard allows. */
  predicate Standard(rs: seq<Request>) {
    forall i :: 0 <= i < |rs| ==> |rs[i].ssid| <= SSID_MAX
  }

  lemma {:induction false} DroppingIsWithout(list: seq<Network>, ssid: string)
    requires Distinct(list)
    ensures Dropping(list, ssid) == Without(list, ssid)
    decreases |list|
  {
    if list != [] {
      assert Distinct(list[1..]) by {
        assert forall i :: 0 <= i < |list| - 1 ==> list[1..][i] == list[i + 1];
      }
      DroppingIsWithout(list[1..], ssid);
      if list[0].ssid == ssid {
        NothingToDrop(list[1..], ssid);
        assert list[..0] == [];
      } else {
        WithoutTail(list, ssid);
      }
    }
  }

  lemma WithoutTail(list: seq<Network>, ssid: string)
    requires list != [] && list[0].ssid != ssid
    ensures Without(list, ssid) == [list[0]] + Without(list[1..], ssid)
  {
    var i := IndexOf(list[1..], ssid);
    if i < |list[1..]| {
      assert list[..i + 1] == [list[0]] + list[1..][..i];
    }
  }

  lemma {:induction false} NothingToDrop(list: seq<Network>, ssid: string)
    requires forall k :: 0 <= k < |list| ==> list[k].ssid != ssid
    ensures Dropping(list, ssid) == list
    decreases |list|
  {
    if list != [] {
      NothingToDrop(list[1..], ssid);
    }
  }

  lemma WithoutAt(list: seq<Network>, ssid: string, k: nat)
    requires k < |Without(list, ssid)|
    ensures var i := IndexOf(list, ssid);
            (k >= i ==> k + 1 < |list|) && Without(list, ssid)[k] == if k < i then list[k] else list[k + 1]
  {
  }

  lemma WithoutKeepsDistinct(list: seq<Network>, e: Network)
    requires Distinct(list)
    ensures Distinct([e] + Without(list, e.ssid))
  {
    var r := Without(list, e.ssid);
    DroppingIsWithout(list, e.ssid);
    forall i, j | 0 <= i < j < |r| ensures r[i].ssid != r[j].ssid {
      WithoutAt(list, e.ssid, i);
      WithoutAt(list, e.ssid, j);
    }
  }

  /** Forgetting the tail first changes nothing that eight entries can show. */
  lemma SaveFromPrefix(all: seq<Network>, ssid: string, password: Option<string>)
    ensures Save(Take(MAX_NETWORKS, all), ssid, password) == Save(all, ssid, password)
  {
    var part := Take(MAX_NETWORKS, all);
    var a, b := Without(all, ssid), Without(part, ssid);
    IndexInPrefix(all, ssid);
    forall k | 0 <= k < MAX_NETWORKS - 1 && k < |b| ensures k < |a| && a[k] == b[k] {
      WithoutAt(part, ssid, k);
      WithoutAt(all, ssid, k);
    }
    assert Take(MAX_NETWORKS - 1, a) == Take(MAX_NETWORKS - 1, b);
    TakeFront(Entry(ssid, password), a);
    TakeFront(Entry(ssid, password), b);
  }

  lemma TakeFront(e: Network, list: seq<Network>)
    ensures Take(MAX_NETWORKS, [e] + list) == [e] + Take(MAX_NETWORKS - 1, list)
  {
  }

  lemma IndexInPrefix(all: seq<Network>, ssid: string)
    ensures IndexOf(Take(MAX_NETWORKS, all), ssid) == Min(IndexOf(all, ssid), |Take(MAX_NETWORKS, all)|)
  {
    var part := Take(MAX_NETWORKS, all);
    var i, j := IndexOf(all, ssid), IndexOf(part, ssid);
    if j < |part| { assert all[j].ssid == ssid; }
    if i < |part| { assert part[i].ssid == ssid; }
  }

  lemma {:induction false} RecentDistinct(rs: seq<Request>)
    requires Standard(rs)
    ensures Distinct(Recent(rs))
    decreases |rs|
  {
    if rs != [] {
      var r := rs[|rs| - 1];
      RecentDistinct(rs[..|rs| - 1]);
      DroppingIsWithout(Recent(rs[..|rs| - 1]), r.ssid);
      WithoutKeepsDistinct(Recent(rs[..|rs| - 1]), Entry(r.ssid, r.password));
    }
  }

  /** After any saves, starting from an empty list: exactly the eight most recent distinct SSIDs, latest first, each
      with the password saved last. */
  lemma {:induction false} MostRecentlyUsed(rs: seq<Request>)
    requires Standard(rs)
    ensures SaveAll(rs) == Take(MAX_NETWORKS, Recent(rs))
    decreases |rs|
  {
    if rs != [] {
      var r, front := rs[|rs| - 1], rs[..|rs| - 1];
      MostRecentlyUsed(front);
      RecentDistinct(front);
      SaveFromPrefix(Recent(front), r.ssid, r.password);
      DroppingIsWithout(Recent(front), r.ssid);
    }
  }

  lemma {:induction false} SavedDistinct(rs: seq<Request>)
    requires Standard(rs)
    ensures Distinct(SaveAll(rs))
  {
    MostRecentlyUsed(rs);
    RecentDistinct(rs);
  }

  // ---- The same, without a reference list ----

  /** When an SSID was last saved; -1 if it never was. */
  function LastSave(rs: seq<Request>, ssid: string): (i: int)
    ensures -1 <= i < |rs| && (i >= 0 ==> rs[i].ssid == ssid)
    ensures forall k :: i < k < |rs| ==> rs[k].ssid != ssid
  {
    if rs == [] then -1
    else if rs[|rs| - 1].ssid == ssid then |rs| - 1
    else LastSave(rs[..|rs| - 1], ssid)
  }

  /** What is kept of a password: its first 64 characters, and nothing of none. */
  function PasswordKept(password: Option<string>): string {
    match password
    case None => ""
    case Some(p) => if |p| <= 64 then p else p[..64]
  }

  /** The SSID was saved, and the password is that of its last request. */
  predicate IsLatest(rs: seq<Request>, e: Network) {
    var i := LastSave(rs, e.ssid);
    i >= 0 && e.password == PasswordKept(rs[i].password)
  }

  /** Latest entries, in the order of their last save, latest first (so without repetition). */
  predicate ByRecency(rs: seq<Request>, list: seq<Network>) {
    && (forall k :: 0 <= k < |list| ==> IsLatest(rs, list[k]))
    && (forall k, l :: 0 <= k < l < |list| ==> LastSave(rs, list[k].ssid) > LastSave(rs, list[l].ssid))
  }

  predicate Lists(list: seq<Network>, ssid: string) {
    exists k :: 0 <= k < |list| && list[k].ssid == ssid
  }

  /** Every SSID that was ever saved is listed. */
  predicate ListsAll(rs: seq<Request>, list: seq<Network>) {
    forall i :: 0 <= i < |rs| ==> Lists(list, rs[i].ssid)
  }

  lemma LastSaveSnoc(front: seq<Request>, r: Request, ssid: string)
    ensures LastSave(front + [r], ssid) == if r.ssid == ssid then |front| else LastSave(front, ssid)
  {
    assert (front + [r])[..|front|] == front;
  }

  lemma LatestStays(front: seq<Request>, r: Request, e: Network)
    requires IsLatest(front, e) && e.ssid != r.ssid
    ensures IsLatest(front + [r], e) && LastSave(front + [r], e.ssid) == LastSave(front, e.ssid)
  {
    LastSaveSnoc(front, r, e.ssid);
  }

  lemma DroppedAt(list: seq<Network>, ssid: string, k: nat)
    requires Distinct(list) && k < |Without(list, ssid)|
    ensures Without(list, ssid)[k].ssid != ssid
  {
    WithoutAt(list, ssid, k);
  }

  lemma ByRecencyDistinct(rs: seq<Request>, list: seq<Network>)
    requires ByRecency(rs, list)
    ensures Distinct(list)
  {
  }

  lemma {:induction false} RecencyStep(front: seq<Request>, r: Request, list: seq<Network>)
    requires ByRecency(front, list) && |r.ssid| <= SSID_MAX
    ensures ByRecency(front + [r], [Entry(r.ssid, r.password)] + Without(list, r.ssid))
  {
    var rs, e, rest := front + [r], Entry(r.ssid, r.password), Without(list, r.ssid);
    ByRecencyDistinct(front, list);
    LastSaveSnoc(front, r, r.ssid);
    assert IsLatest(rs, e);
    forall k | 0 <= k < |rest| ensures IsLatest(rs, rest[k]) && LastSave(rs, rest[k].ssid) == LastSave(front, rest[k].ssid) {
      WithoutAt(list, r.ssid, k);
      DroppedAt(list, r.ssid, k);
      LatestStays(front, r, rest[k]);
    }
    forall k, l | 0 <= k < l < |rest| ensures LastSave(front, rest[k].ssid) > LastSave(front, rest[l].ssid) {
      WithoutAt(list, r.ssid, k);
      WithoutAt(list, r.ssid, l);
    }
    FrontIsLatest(rs, e, rest);
  }

  lemma FrontIsLatest(rs: seq<Request>, e: Network, rest: seq<Network>)
    requires ByRecency(rs, rest) && IsLatest(rs, e)
    requires forall k :: 0 <= k < |rest| ==> LastSave(rs, rest[k].ssid) < LastSave(rs, e.ssid)
    ensures ByRecency(rs, [e] + rest)
  {
    var result := [e] + rest;
    forall k | 0 <= k < |result| ensures IsLatest(rs, result[k]) {
      if k > 0 { assert result[k] == rest[k - 1]; }
    }
    forall k, l | 0 <= k < l < |result| ensures LastSave(rs, result[k].ssid) > LastSave(rs, result[l].ssid) {
      FrontIsLater(rs, e, rest, k, l);
    }
  }

  lemma FrontIsLater(rs: seq<Request>, e: Network, rest: seq<Network>, k: nat, l: nat)
    requires ByRecency(rs, rest) && k < l < |[e] + rest|
    requires forall k :: 0 <= k < |rest| ==> LastSave(rs, rest[k].ssid) < LastSave(rs, e.ssid)
    ensures LastSave(rs, ([e] + rest)[k].ssid) > LastSave(rs, ([e] + rest)[l].ssid)
  {
  }

  lemma WithoutLists(list: seq<Network>, ssid: string, other: string)
    requires Lists(list, other) && other != ssid
    ensures Lists(Without(list, ssid), other)
  {
    var k :| 0 <= k < |list| && list[k].ssid == other;
    var i := IndexOf(list, ssid);
    var rest := Without(list, ssid);
    assert k != i;
    var l := if k < i then k else k - 1;
    WithoutAt(list, ssid, l);
    assert rest[l].ssid == other;
  }

  lemma ListsAllStep(front: seq<Request>, r: Request, list: seq<Network>)
    requires ListsAll(front, list) && |r.ssid| <= SSID_MAX
    ensures ListsAll(front + [r], [Entry(r.ssid, r.password)] + Without(list, r.ssid))
  {
    var rs, rest := front + [r], Without(list, r.ssid);
    var result := [Entry(r.ssid, r.password)] + rest;
    forall i | 0 <= i < |rs| ensures Lists(result, rs[i].ssid) {
      if rs[i].ssid == r.ssid {
        assert result[0].ssid == r.ssid;
      } else {
        assert rs[i] == front[i];
        WithoutLists(list, r.ssid, rs[i].ssid);
        var k :| 0 <= k < |rest| && rest[k].ssid == rs[i].ssid;
        assert result[k + 1] == rest[k];
      }
    }
  }

  /** What the reference list is: every SSID ever saved, once, with its latest password, by the time of its last save. */
  lemma {:induction false} RecentIs(rs: seq<Request>)
    requires Standard(rs)
    ensures ByRecency(rs, Recent(rs)) && ListsAll(rs, Recent(rs))
    decreases |rs|
  {
    if rs != [] {
      var front, r := rs[..|rs| - 1], rs[|rs| - 1];
      LastApart(rs);
      RecentIs(front);
      RecentDistinct(front);
      DroppingIsWithout(Recent(front), r.ssid);
      RecencyStep(front, r, Recent(front));
      ListsAllStep(front, r, Recent(front));
    }
  }

  /** The array directly: latest entries by the time of their last save; and an SSID that was saved but is not listed
      was last saved before all of eight listed ones. */
  lemma {:induction false} EightMostRecent(rs: seq<Request>, i: int)
    requires Standard(rs) && 0 <= i < |rs|
    ensures ByRecency(rs, SaveAll(rs))
    ensures Lists(SaveAll(rs), rs[i].ssid) ||
            (|SaveAll(rs)| == 8 &&
             forall k :: 0 <= k < 8 ==> LastSave(rs, SaveAll(rs)[k].ssid) > LastSave(rs, rs[i].ssid))
  {
    RecentIs(rs);
    MostRecentlyUsed(rs);
    PrefixOfRecent(rs, Recent(rs), i);
  }

  /** A password of at most 64 characters comes back as it was last given, for every name listed. */
  lemma {:induction false} PasswordComesBack(rs: seq<Request>, k: int)
    requires Standard(rs) && 0 <= k < |SaveAll(rs)|
    ensures var e := SaveAll(rs)[k];
            var i := LastSave(rs, e.ssid);
            && 0 <= i < |rs|
            && (rs[i].password.Some? && |rs[i].password.value| <= 64 ==> e.password == rs[i].password.value)
            && (rs[i].password.None? ==> e.password == "")
  {
    RecentIs(rs);
    MostRecentlyUsed(rs);
    PrefixByRecency(rs, Recent(rs));
    assert IsLatest(rs, SaveAll(rs)[k]);
  }

  /** One save, whatever the name: the front entry holds its first 32 characters and the password kept, and a name of
      at most 32 characters is found there. */
  lemma SavedInFront(list: seq<Network>, ssid: string, password: Option<string>)
    ensures var saved := Save(list, ssid, password);
            && 0 < |saved| <= 8
            && saved[0].ssid == (if |ssid| <= 32 then ssid else ssid[..32])
            && saved[0].password == PasswordKept(password)
            && (|ssid| <= 32 ==> IndexOf(saved, ssid) == 0)
  {
  }

  lemma {:induction false} PrefixOfRecent(rs: seq<Request>, all: seq<Network>, i: int)
    requires ByRecency(rs, all) && ListsAll(rs, all) && 0 <= i < |rs|
    ensures var part := Take(MAX_NETWORKS, all);
            ByRecency(rs, part) &&
            (Lists(part, rs[i].ssid) ||
             (|part| == MAX_NETWORKS &&
              forall k :: 0 <= k < MAX_NETWORKS ==> LastSave(rs, part[k].ssid) > LastSave(rs, rs[i].ssid)))
  {
    assert Lists(all, rs[i].ssid);
    var k :| 0 <= k < |all| && all[k].ssid == rs[i].ssid;
    PrefixByRecency(rs, all);
    ListedOrOlder(rs, all, k);
  }

  lemma PrefixByRecency(rs: seq<Request>, all: seq<Network>)
    requires ByRecency(rs, all)
    ensures ByRecency(rs, Take(MAX_NETWORKS, all))
  {
    var part := Take(MAX_NETWORKS, all);
    forall k | 0 <= k < |part| ensures IsLatest(rs, part[k]) {
      assert part[k] == all[k];
    }
    forall k, l | 0 <= k < l < |part| ensures LastSave(rs, part[k].ssid) > LastSave(rs, part[l].ssid) {
      assert part[k] == all[k] && part[l] == all[l];
    }
  }

  lemma ListedOrOlder(rs: seq<Request>, all: seq<Network>, k: nat)
    requires ByRecency(rs, all) && k < |all|
    ensures var part := Take(MAX_NETWORKS, all);
            Lists(part, all[k].ssid) ||
            (|part| == MAX_NETWORKS &&
             forall j :: 0 <= j < MAX_NETWORKS ==> LastSave(rs, part[j].ssid) > LastSave(rs, all[k].ssid))
  {
    var part := Take(MAX_NETWORKS, all);
    if k < |part| {
      assert part[k].ssid == all[k].ssid;
    } else {
      forall j | 0 <= j < MAX_NETWORKS ensures LastSave(rs, part[j].ssid) > LastSave(rs, all[k].ssid) {
        assert part[j] == all[j];
      }
    }
  }

  // ---- SSIDs longer than 32 bytes ----

  /** Stored names never exceed 32 bytes. */
  predicate Stored(list: seq<Network>) {
    |list| <= MAX_NETWORKS && forall i :: 0 <= i < |list| ==> |list[i].ssid| <= SSID_MAX
  }

  /** The name fits, or its cut form is not among the entries that stay. */
  predicate KeptApart(list: seq<Network>, ssid: string) {
    |ssid| <= SSID_MAX ||
    forall k :: 0 <= k < Min(|list|, MAX_NETWORKS - 1) ==> list[k].ssid != Take(SSID_MAX, ssid)
  }

  lemma LongNameSaved(list: seq<Network>, ssid: string, password: Option<string>)
    requires Stored(list) && |ssid| > SSID_MAX
    ensures var saved := Save(list, ssid, password);
            && saved == [Entry(ssid, password)] + Take(MAX_NETWORKS - 1, list)
  {
    assert IndexOf(list, ssid) == |list|;
    TakeFront(Entry(ssid, password), list);
  }

  lemma FrontDistinctIff(e: Network, rest: seq<Network>)
    requires Distinct(rest)
    ensures Distinct([e] + rest) <==> forall k :: 0 <= k < |rest| ==> rest[k].ssid != e.ssid
  {
    var all := [e] + rest;
    if Distinct(all) {
      forall k | 0 <= k < |rest| ensures rest[k].ssid != e.ssid {
        assert all[0].ssid != all[k + 1].ssid;
      }
    }
  }

  lemma PrefixDistinct(list: seq<Network>, n: nat)
    requires Distinct(list)
    ensures Distinct(Take(n, list))
  {
  }

  /** The search compares the name as given, the entry holds it cut to 32 bytes. Distinctness survives a save exactly
      when the name fits, or when its cut form is not among the entries that stay. */
  lemma {:induction false} DistinctAfterSaveIff(list: seq<Network>, ssid: string, password: Option<string>)
    requires Stored(list) && Distinct(list)
    ensures Distinct(Save(list, ssid, password)) <==> KeptApart(list, ssid)
  {
    var e := Entry(ssid, password);
    if |ssid| <= SSID_MAX {
      WithoutKeepsDistinct(list, e);
      PrefixDistinct([e] + Without(list, ssid), MAX_NETWORKS);
    } else {
      LongNameSaved(list, ssid, password);
      PrefixDistinct(list, MAX_NETWORKS - 1);
      FrontDistinctIff(e, Take(MAX_NETWORKS - 1, list));
    }
  }

  lemma SaveStored(list: seq<Network>, ssid: string, password: Option<string>)
    requires Stored(list)
    ensures Stored(Save(list, ssid, password))
  {
    var all := [Entry(ssid, password)] + Without(list, ssid);
    forall k | 0 <= k < |all| ensures |all[k].ssid| <= SSID_MAX {
      if k > 0 { WithoutAt(list, ssid, k - 1); }
    }
  }

  lemma {:induction false} AllStored(rs: seq<Request>)
    ensures Stored(SaveAll(rs))
    decreases |rs|
  {
    if rs != [] {
      var r := rs[|rs| - 1];
      AllStored(rs[..|rs| - 1]);
      SaveStored(SaveAll(rs[..|rs| - 1]), r.ssid, r.password);
    }
  }

  /** No SSID is listed twice, after any of the saves. */
  predicate DistinctThroughout(rs: seq<Request>)
    decreases |rs|
  {
    Distinct(SaveAll(rs)) && (rs != [] ==> DistinctThroughout(rs[..|rs| - 1]))
  }

  /** No save of a long name meets its own cut form among the entries that stay. */
  predicate NeverCollides(rs: seq<Request>)
    decreases |rs|
  {
    rs != [] ==>
      var front := rs[..|rs| - 1];
      NeverCollides(front) && KeptApart(SaveAll(front), rs[|rs| - 1].ssid)
  }

  /** On whole runs, with names of any length. */
  lemma {:induction false} DistinctThroughoutIff(rs: seq<Request>)
    ensures DistinctThroughout(rs) <==> NeverCollides(rs)
    decreases |rs|
  {
    if rs != [] {
      var front, r := rs[..|rs| - 1], rs[|rs| - 1];
      DistinctThroughoutIff(front);
      if DistinctThroughout(front) {
        AllStored(front);
        DistinctAfterSaveIff(SaveAll(front), r.ssid, r.password);
      }
    }
  }

  /** A 33-character name saved twice is listed twice. */
  lemma LongNameTwice()
    ensures var ssid := seq(SSID_MAX + 1, _ => 'x');
            !Distinct(Save(Save([], ssid, None), ssid, None))
  {
    var ssid := seq(SSID_MAX + 1, _ => 'x');
    var e := Entry(ssid, None);
    assert Save([], ssid, None) == [e] by {
      assert [e] + [] == [e];
    }
    assert |e.ssid| == SSID_MAX;
    assert IndexOf([e], ssid) == 1;
    var saved := Save([e], ssid, None);
    assert saved == [e, e] by {
      assert Without([e], ssid) == [e];
      assert [e] + [e] == [e, e];
    }
    assert saved[0].ssid == saved[1].ssid;
  }
}
