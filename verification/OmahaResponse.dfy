/** Which payload the Omaha server for tests gives to each app of a request (nebraska/nebraska.py). */
module OmahaResponse {
  import opened Prelude
  import opened OmahaRequest

  // ---------- matching ----------

  const CANARY_APP_ID := "{90F229CE-83E2-4FAF-8479-E368A34938B1}"

  datatype AppData = AppData(appid: string, name: string, isDelta: bool)

  function CanaryAppid(e: AppData): string {
    if |e.appid| >= |CANARY_APP_ID| then CANARY_APP_ID + e.appid[|CANARY_APP_ID|..] else ""
  }

  predicate OccursAt(part: string, whole: string, i: nat) {
    i + |part| <= |whole| && whole[i..i + |part|] == part
  }

  predicate Substring(part: string, whole: string) {
    exists i: nat | i <= |whole| :: OccursAt(part, whole, i)
  }

  function MatchAppData(q: AppRequest, e: AppData, partialMatch: bool, checkCanary: bool, ignoreAppid: bool): bool {
    if !ignoreAppid && q.appid != e.appid && partialMatch && !Substring(e.appid, q.appid) then false
    else if !ignoreAppid && q.appid != e.appid && !partialMatch && checkCanary && CanaryAppid(e) != q.appid then false
    else if !ignoreAppid && q.appid != e.appid && !partialMatch && !checkCanary then false
    else if q.kind == Update then (if e.isDelta then q.deltaOkay else true)
    else if q.kind == Install then !e.isDelta
    else false
  }

  /** How closely an entry of the index names an app. */
  datatype Tier = Exact | Canary | Partial | Anything

  function Matches(q: AppRequest, e: AppData, t: Tier): bool {
    MatchAppData(q, e, t == Partial, t == Canary, t == Anything)
  }

  /** The positions in the index that match, in order. */
  function Matching(index: seq<AppData>, q: AppRequest, t: Tier): (r: seq<nat>) {
    if index == [] then []
    else
      var n := |index| - 1;
      Matching(index[..n], q, t) + if Matches(q, index[n], t) then [n] else []
  }

  /** The positions of the tier, as a set. */
  ghost function InTier(index: seq<AppData>, q: AppRequest, t: Tier): set<nat> {
    set k: nat | k < |index| && Matches(q, index[k], t)
  }

  ghost predicate Ascending(s: seq<nat>) {
    forall i, j :: 0 <= i < j < |s| ==> s[i] < s[j]
  }

  ghost predicate Within(s: seq<nat>, n: nat) {
    forall i :: 0 <= i < |s| ==> s[i] < n
  }

  /** r lists the elements of s, all below n, in order. */
  ghost predicate Lists(r: seq<nat>, s: set<nat>, n: nat) {
    Ascending(r) && Within(r, n) && forall k :: k in r <==> k in s
  }

  lemma TierListed(index: seq<AppData>, q: AppRequest, t: Tier)
    ensures Lists(Matching(index, q, t), InTier(index, q, t), |index|)
    ensures Matching(index, q, t) == [] <==> InTier(index, q, t) == {}
  {
    hide Matches;
    MatchingExact(index, q, t);
    var r := Matching(index, q, t);
    if r != [] {
      assert r[0] in r;
    } else {
      assert forall k :: k !in r;
    }
  }

  lemma {:induction false} MatchingExact(index: seq<AppData>, q: AppRequest, t: Tier)
    ensures var r := Matching(index, q, t);
            Ascending(r) && Within(r, |index|) && forall k :: k in r <==> k in InTier(index, q, t)
  {
    hide Matches;
    if index != [] {
      var n := |index| - 1;
      var init, last := Matching(index[..n], q, t), if Matches(q, index[n], t) then [n] else [];
      MatchingExact(index[..n], q, t);
      assert Matching(index, q, t) == init + last;
      forall k ensures k in init + last <==> k in InTier(index, q, t) {
        assert k in init + last <==> k in init || k in last;
      }
    }
  }

  /** The first of the tiers that has any entry; the last one only if ids may be ignored. */
  ghost function FirstTier(index: seq<AppData>, q: AppRequest, ignoreAppid: bool): set<nat> {
    if InTier(index, q, Exact) != {} then InTier(index, q, Exact)
    else if InTier(index, q, Canary) != {} then InTier(index, q, Canary)
    else if InTier(index, q, Partial) != {} then InTier(index, q, Partial)
    else if ignoreAppid then InTier(index, q, Anything)
    else {}
  }

  // ---------- what matches, in strings ----------

  /** The kind of payload suits the request. */
  ghost predicate Suits(q: AppRequest, e: AppData) {
    if e.isDelta then q.kind == Update && q.deltaOkay else q.kind == Update || q.kind == Install
  }

  /** The request's id is the entry's after its head was replaced by that of the canary channel; a
      short id has an empty canary. */
  ghost predicate ByCanary(q: AppRequest, e: AppData) {
    q.appid == if |e.appid| < 38 then "" else "{90F229CE-83E2-4FAF-8479-E368A34938B1}" + e.appid[38..]
  }

  /** The entry's id occurs in that of the request. */
  ghost predicate ByPart(q: AppRequest, e: AppData) {
    exists before, after :: q.appid == before + e.appid + after
  }

  lemma SubstringIsPart(part: string, whole: string)
    ensures Substring(part, whole) <==> exists before, after :: whole == before + part + after
  {
    if Substring(part, whole) {
      var i: nat :| i <= |whole| && OccursAt(part, whole, i);
      assert whole == whole[..i] + part + whole[i + |part|..];
    }
    if before, after :| whole == before + part + after {
      assert OccursAt(part, whole, |before|);
    }
  }

  /** Of one entry and one request: the kind that fits, and the ways in which the entry may name the
      app. */
  lemma MatchesInStrings(q: AppRequest, e: AppData, t: Tier)
    ensures Matches(q, e, t) <==>
            && ((q.kind == Update && (e.isDelta ==> q.deltaOkay)) || (q.kind == Install && !e.isDelta))
            && match t
               case Exact => e.appid == q.appid
               case Canary => || e.appid == q.appid
                              || q.appid == (if |e.appid| < 38 then ""
                                             else "{90F229CE-83E2-4FAF-8479-E368A34938B1}" + e.appid[38..])
               case Partial => e.appid == q.appid || exists before, after :: q.appid == before + e.appid + after
               case Anything => true
  {
    assert |CANARY_APP_ID| == 38;
    SubstringIsPart(e.appid, q.appid);
  }

  lemma TierInStrings(index: seq<AppData>, q: AppRequest, t: Tier)
    ensures forall k: nat :: k in InTier(index, q, t) <==>
              && k < |index| && Suits(q, index[k])
              && match t
                 case Exact => index[k].appid == q.appid
                 case Canary => index[k].appid == q.appid || ByCanary(q, index[k])
                 case Partial => index[k].appid == q.appid || ByPart(q, index[k])
                 case Anything => true
    ensures InTier(index, q, t) == {} <==> forall k: nat | k < |index| :: k !in InTier(index, q, t)
  {
    forall k: nat | k < |index| ensures k in InTier(index, q, t) <==> Matches(q, index[k], t) {
    }
    forall k: nat | k < |index|
      ensures Matches(q, index[k], t) <==>
              && Suits(q, index[k])
              && match t
                 case Exact => index[k].appid == q.appid
                 case Canary => index[k].appid == q.appid || ByCanary(q, index[k])
                 case Partial => index[k].appid == q.appid || ByPart(q, index[k])
                 case Anything => true
    {
      MatchesInStrings(q, index[k], t);
    }
  }

  /** The entry k may go to the app: it suits and names the app in the strongest way in which any that
      suits does; ids are ignored only if no entry names the app at all. */
  ghost predicate NamesBest(index: seq<AppData>, q: AppRequest, ignoreAppid: bool, k: nat) {
    && k < |index| && Suits(q, index[k])
    && (|| index[k].appid == q.appid
        || (&& (forall j: nat | j < |index| && Suits(q, index[j]) :: index[j].appid != q.appid)
            && (|| ByCanary(q, index[k])
                || (&& (forall j: nat | j < |index| && Suits(q, index[j]) :: !ByCanary(q, index[j]))
                    && (|| ByPart(q, index[k])
                        || (ignoreAppid && forall j: nat | j < |index|
                            && Suits(q, index[j]) :: !ByPart(q, index[j])))))))
  }

  lemma FirstTierInStrings(index: seq<AppData>, q: AppRequest, ignoreAppid: bool, k: nat)
    ensures k in FirstTier(index, q, ignoreAppid) <==> NamesBest(index, q, ignoreAppid, k)
  {
    TierInStrings(index, q, Exact);
    TierInStrings(index, q, Canary);
    TierInStrings(index, q, Partial);
    TierInStrings(index, q, Anything);
    hide InTier, Suits, ByCanary, ByPart;
  }

  /** r is the entry for the request when those in `taken` are given away: the first of its kind that
      is left of the first tier; a delta if the client takes deltas and the server gives them, and
      otherwise a full payload unless the server gives only deltas. */
  ghost predicate Chosen(index: seq<AppData>, q: AppRequest, taken: set<nat>, full: Option<bool>, ignoreAppid: bool,
                         r: Option<nat>) {
    var eligible := FirstTier(index, q, ignoreAppid) - taken;
    && (r.Some? ==>
          && r.value in eligible && r.value < |index|
          && (forall j <- eligible :: j < |index| && (index[j].isDelta == index[r.value].isDelta ==> r.value <= j))
          && (if index[r.value].isDelta then q.deltaOkay && full != Some(true)
              else && full != Some(false)
                   && (q.deltaOkay && full == None ==> forall j <- eligible :: j < |index| && !index[j].isDelta)))
    && (r == None ==>
          forall j <- eligible ::
            j < |index| && if index[j].isDelta then !q.deltaOkay || full == Some(true) else full == Some(false))
  }

  lemma ChosenIsUnique(index: seq<AppData>, q: AppRequest, taken: set<nat>, full: Option<bool>, ignoreAppid: bool,
                       r: Option<nat>, s: Option<nat>)
    requires Chosen(index, q, taken, full, ignoreAppid, r) && Chosen(index, q, taken, full, ignoreAppid, s)
    ensures r == s
  {
    hide FirstTier;
    if full.Some? {
      var v := full.value;
      assert full == if v then Some(true) else Some(false);
    }
    if r.Some? && s.Some? {
      assert index[r.value].isDelta == index[s.value].isDelta;
    }
  }

  // ---------- Find ----------

  function Untaken(positions: seq<nat>, taken: set<nat>): seq<nat> {
    if positions == [] then []
    else
      var n := |positions| - 1;
      Untaken(positions[..n], taken) + if positions[n] in taken then [] else [positions[n]]
  }

  lemma {:induction false} UntakenExact(positions: seq<nat>, taken: set<nat>, bound: nat)
    requires Ascending(positions) && Within(positions, bound)
    ensures var r := Untaken(positions, taken);
            Ascending(r) && Within(r, bound) && forall k :: k in r <==> k in positions && k !in taken
  {
    if positions != [] {
      var n := |positions| - 1;
      var init, last := Untaken(positions[..n], taken), if positions[n] in taken then [] else [positions[n]];
      assert Within(positions[..n], positions[n]);
      UntakenExact(positions[..n], taken, positions[n]);
      assert Untaken(positions, taken) == init + last;
      hide Untaken;
      UntakenLast(positions, taken, init, last);
    }
  }

  lemma UntakenLast(positions: seq<nat>, taken: set<nat>, init: seq<nat>, last: seq<nat>)
    requires positions != [] && last == if positions[|positions| - 1] in taken then [] else [positions[|positions| - 1]]
    requires forall k :: k in init <==> k in positions[..|positions| - 1] && k !in taken
    ensures forall k :: k in init + last <==> k in positions && k !in taken
  {
    var n := |positions| - 1;
    assert positions == positions[..n] + [positions[n]];
    forall k ensures k in init + last <==> k in positions && k !in taken {
      assert k in init + last <==> k in init || k in last;
      assert k in positions <==> k in positions[..n] || k == positions[n];
    }
  }

  /** next(x for x in matches if x.is_delta == delta) */
  function FirstOf(index: seq<AppData>, positions: seq<nat>, delta: bool): (r: Option<nat>)
    requires Within(positions, |index|)
  {
    if positions == [] then None
    else if index[positions[0]].isDelta == delta then Some(positions[0])
    else FirstOf(index, positions[1..], delta)
  }

  lemma {:induction false} FirstOfExact(index: seq<AppData>, positions: seq<nat>, delta: bool)
    requires Ascending(positions) && Within(positions, |index|)
    ensures match FirstOf(index, positions, delta)
            case Some(k) => k in positions && k < |index| && index[k].isDelta == delta
                            && forall j <- positions :: j < |index| && (index[j].isDelta == delta ==> k <= j)
            case None => forall j <- positions :: j < |index| && index[j].isDelta != delta
  {
    if positions != [] {
      FirstOfExact(index, positions[1..], delta);
      forall j <- positions ensures positions[0] <= j < |index| && (j == positions[0] || j in positions[1..]) {
        var i :| 0 <= i < |positions| && positions[i] == j;
      }
    }
  }

  // ---------- responses ----------

  datatype UpdateCheck = Absent | NoUpdate | Payload(position: nat)

  /** The app element of the response: its id, its status attribute and its updatecheck element. */
  datatype Answer = Answer(appid: string, status: string, updateCheck: UpdateCheck)

  /** What a response is compiled from. */
  datatype Server = Server(
    updateIndex: seq<AppData>,
    installIndex: seq<AppData>,
    ignoreAppid: bool,
    noUpdate: bool,
    fullPayload: Option<bool>)

  function IndexFor(v: Server, kind: RequestType): seq<AppData> {
    if kind == Install then v.installIndex else v.updateIndex
  }

  /** Installs always ask for full payloads, and never ignore the app id. */
  function FullFor(v: Server, kind: RequestType): Option<bool> {
    if kind == Install then Some(true) else v.fullPayload
  }

  function IgnoreFor(v: Server, kind: RequestType): bool {
    kind != Install && v.ignoreAppid
  }

  /** Whether a payload is looked for at all. */
  predicate Wants(v: Server, q: AppRequest) {
    !v.noUpdate && (q.kind == Update || (q.kind == Install && q.hasUpdateCheck))
  }

  /** Compile */
  function AnswerTo(q: AppRequest, served: Option<nat>): Answer {
    if served.Some? then Answer(q.appid, "ok", Payload(served.value))
    else if q.kind == Install && !q.hasUpdateCheck then Answer(q.appid, "noupdate", Absent)
    else if q.kind == Update then Answer(q.appid, "ok", NoUpdate)
    else Answer(q.appid, "ok", Absent)
  }

  ghost function Given(served: seq<Option<nat>>): set<nat> {
    set i | 0 <= i < |served| && served[i].Some? :: served[i].value
  }

  /** Each app is given what is chosen for it when the apps before it have been served. */
  ghost predicate ServedAt(v: Server, kind: RequestType, apps: seq<AppRequest>, served: seq<Option<nat>>, i: nat)
    requires i < |apps| == |served|
  {
    if Wants(v, apps[i])
    then Chosen(IndexFor(v, kind), apps[i], Given(served[..i]), FullFor(v, kind), IgnoreFor(v, kind), served[i])
    else served[i] == None
  }

  ghost predicate Served(v: Server, kind: RequestType, apps: seq<AppRequest>, served: seq<Option<nat>>) {
    && |served| == |apps|
    && forall i :: 0 <= i < |apps| ==> ServedAt(v, kind, apps, served, i)
  }

  lemma GivenNext(served: seq<Option<nat>>, i: nat)
    requires i < |served|
    ensures Given(served[..i + 1]) == Given(served[..i]) + if served[i].Some? then {served[i].value} else {}
  {
    var a, b := served[..i], served[..i + 1];
    forall k ensures k in Given(b) <==> k in Given(a) || served[i] == Some(k) {
      if k in Given(a) {
        var j :| 0 <= j < |a| && a[j] == Some(k);
        assert b[j] == Some(k);
      }
      if served[i] == Some(k) {
        assert b[i] == Some(k);
      }
    }
  }

  // ---------- what every response is like ----------

  /** No entry of the index is given to two apps. */
  lemma NothingServedTwice(v: Server, kind: RequestType, apps: seq<AppRequest>, served: seq<Option<nat>>, i: nat,
                           j: nat)
    requires Served(v, kind, apps, served) && i < j < |served| && served[i].Some? && served[j].Some?
    ensures served[i] != served[j]
  {
    hide FirstTier, InTier;
    assert ServedAt(v, kind, apps, served, j);
    assert served[..j][i] == served[i];
    assert served[i].value in Given(served[..j]);
  }

  /** What an app is given comes from the first tier that has anything, whether or not that is all
      given away; and a delta goes only to an update whose client takes deltas. */
  lemma ServedFromFirstTier(v: Server, kind: RequestType, apps: seq<AppRequest>, served: seq<Option<nat>>, i: nat)
    requires Served(v, kind, apps, served) && i < |served| && served[i].Some? && apps[i].kind == kind
    ensures var index, k := IndexFor(v, kind), served[i].value;
            && k < |index| && k in FirstTier(index, apps[i], IgnoreFor(v, kind))
            && (index[k].isDelta ==> kind == Update && apps[i].deltaOkay && v.fullPayload != Some(true))
            && (kind == Install ==> apps[i].hasUpdateCheck && !index[k].isDelta)
            && kind != Event && !v.noUpdate
  {
    assert ServedAt(v, kind, apps, served, i);
  }

  /** What an app is given, in strings: an entry of the index for the kind of request that suits it,
      that the server's choice between full and delta payloads allows, and that names it best. */
  lemma ServedInStrings(v: Server, kind: RequestType, apps: seq<AppRequest>, served: seq<Option<nat>>, i: nat)
    requires Served(v, kind, apps, served) && i < |served| && served[i].Some? && apps[i].kind == kind
    ensures var index, q, k := if kind == Install then v.installIndex else v.updateIndex, apps[i], served[i].value;
            && !v.noUpdate && (kind == Update || (kind == Install && q.hasUpdateCheck))
            && NamesBest(index, q, kind == Update && v.ignoreAppid, k)
            && (kind == Update ==> v.fullPayload != Some(index[k].isDelta))
  {
    assert ServedAt(v, kind, apps, served, i);
    FirstTierInStrings(IndexFor(v, kind), apps[i], IgnoreFor(v, kind), served[i].value);
    hide FirstTier, NamesBest;
  }

  /** Of the entries that may go to it and are left, an app is given the first of its kind, and a delta
      before any full payload unless the server gives full ones only. */
  lemma ServedFirst(v: Server, kind: RequestType, apps: seq<AppRequest>, served: seq<Option<nat>>, i: nat, m: nat)
    requires Served(v, kind, apps, served) && i < |served| && served[i].Some? && apps[i].kind == kind
    requires NamesBest(if kind == Install then v.installIndex else v.updateIndex, apps[i],
                       kind == Update && v.ignoreAppid, m)
    requires forall j :: 0 <= j < i ==> served[j] != Some(m)
    ensures var index, k := if kind == Install then v.installIndex else v.updateIndex, served[i].value;
            && k < |index| && m < |index|
            && (index[m].isDelta == index[k].isDelta ==> k <= m)
            && (index[m].isDelta && !index[k].isDelta ==> v.fullPayload == Some(true))
  {
    assert ServedAt(v, kind, apps, served, i);
    FirstTierInStrings(IndexFor(v, kind), apps[i], IgnoreFor(v, kind), m);
    assert m !in Given(served[..i]);
    if v.fullPayload.Some? {
      assert v.fullPayload == if v.fullPayload.value then Some(true) else Some(false);
    }
    hide FirstTier, ByCanary, ByPart;
  }

  /** An app is answered with a payload unless all that may go to it, and that the server's choice
      allows, went to apps before it. */
  lemma NamedIsServed(v: Server, kind: RequestType, apps: seq<AppRequest>, served: seq<Option<nat>>, i: nat, m: nat)
    requires Served(v, kind, apps, served) && i < |served| && apps[i].kind == kind && !v.noUpdate
    requires kind == Update || (kind == Install && apps[i].hasUpdateCheck)
    requires NamesBest(if kind == Install then v.installIndex else v.updateIndex, apps[i],
                       kind == Update && v.ignoreAppid, m)
    requires kind == Update ==> v.fullPayload != Some(v.updateIndex[m].isDelta)
    ensures served[i].Some? || exists j :: 0 <= j < i && served[j] == Some(m)
  {
    FirstTierInStrings(IndexFor(v, kind), apps[i], IgnoreFor(v, kind), m);
    hide FirstTier, ByCanary, ByPart;
    if served[i] == None {
      UnservedOnlyIfTaken(v, kind, apps, served, i, m);
    }
  }

  /** An answer in its fields. */
  lemma AnswerInFields(q: AppRequest, served: Option<nat>)
    ensures var a := AnswerTo(q, served);
            && a.appid == q.appid
            && (served.Some? ==> a.status == "ok" && a.updateCheck == Payload(served.value))
            && (served == None && q.kind == Update ==> a.status == "ok" && a.updateCheck == NoUpdate)
            && (served == None && q.kind == Install ==>
                  a.status == (if q.hasUpdateCheck then "ok" else "noupdate") && a.updateCheck == Absent)
            && (served == None && q.kind == Event ==> a.status == "ok" && a.updateCheck == Absent)
  {
  }

  /** An app that wants a payload and gets none has nothing suitable in its first tier but what went
      to apps before it. */
  lemma UnservedOnlyIfTaken(v: Server, kind: RequestType, apps: seq<AppRequest>, served: seq<Option<nat>>, i: nat,
                            k: nat)
    requires Served(v, kind, apps, served) && i < |served| && served[i] == None && Wants(v, apps[i])
    requires var index := IndexFor(v, kind);
             && k in FirstTier(index, apps[i], IgnoreFor(v, kind)) && k < |index|
             && (if index[k].isDelta then apps[i].deltaOkay && FullFor(v, kind) != Some(true)
                 else FullFor(v, kind) != Some(false))
    ensures exists j :: 0 <= j < i && served[j] == Some(k)
  {
    hide FirstTier, InTier;
    assert ServedAt(v, kind, apps, served, i);
    assert k in Given(served[..i]);
    var j :| 0 <= j < |served[..i]| && served[..i][j] == Some(k);
    assert served[j] == Some(k);
  }

  // ---------- the order of the apps ----------

  /** No two apps compete for an entry. */
  ghost predicate Disjoint(v: Server, kind: RequestType, apps: seq<AppRequest>) {
    forall i, j :: 0 <= i < j < |apps| ==>
      FirstTier(IndexFor(v, kind), apps[i], IgnoreFor(v, kind))
      !! FirstTier(IndexFor(v, kind), apps[j], IgnoreFor(v, kind))
  }

  /** An app that competes with none before it is served as if it were alone. */
  lemma AloneChosen(v: Server, kind: RequestType, apps: seq<AppRequest>, served: seq<Option<nat>>, i: nat)
    requires Served(v, kind, apps, served) && Disjoint(v, kind, apps) && i < |apps| && Wants(v, apps[i])
    ensures Chosen(IndexFor(v, kind), apps[i], {}, FullFor(v, kind), IgnoreFor(v, kind), served[i])
  {
    assert ServedAt(v, kind, apps, served, i);
    var tier := FirstTier(IndexFor(v, kind), apps[i], IgnoreFor(v, kind));
    forall k <- Given(served[..i]) ensures k !in tier {
      var j :| 0 <= j < |served[..i]| && served[..i][j] == Some(k);
      assert ServedAt(v, kind, apps, served, j);
      assert k in FirstTier(IndexFor(v, kind), apps[j], IgnoreFor(v, kind)) by {
        hide FirstTier;
      }
    }
    assert tier - Given(served[..i]) == tier - {};
    hide FirstTier;
  }

  ghost predicate IsPermutation(p: seq<nat>, n: nat) {
    |p| == n && Within(p, n) && Distinct(p)
  }

  lemma DisjointPermuted(v: Server, kind: RequestType, apps: seq<AppRequest>, p: seq<nat>, apps': seq<AppRequest>)
    requires Disjoint(v, kind, apps) && IsPermutation(p, |apps|) && |apps'| == |apps|
    requires forall i :: 0 <= i < |apps| ==> apps'[i] == apps[p[i]]
    ensures Disjoint(v, kind, apps')
  {
    hide FirstTier;
    forall i, j | 0 <= i < j < |apps'|
      ensures FirstTier(IndexFor(v, kind), apps'[i], IgnoreFor(v, kind))
              !! FirstTier(IndexFor(v, kind), apps'[j], IgnoreFor(v, kind))
    {
      assert p[i] != p[j];
      if p[i] < p[j] {
      } else {
      }
    }
  }

  /** If no two apps compete, the order in which the request lists them does not matter. */
  lemma OrderDoesNotMatter(v: Server, kind: RequestType, apps: seq<AppRequest>, served: seq<Option<nat>>,
                           p: seq<nat>, apps': seq<AppRequest>, served': seq<Option<nat>>, i: nat)
    requires Served(v, kind, apps, served) && Served(v, kind, apps', served')
    requires Disjoint(v, kind, apps) && IsPermutation(p, |apps|) && |apps'| == |apps|
    requires forall i :: 0 <= i < |apps| ==> apps'[i] == apps[p[i]]
    requires i < |apps|
    ensures served'[i] == served[p[i]]
  {
    DisjointPermuted(v, kind, apps, p, apps');
    hide FirstTier, Disjoint, Chosen;
    assert ServedAt(v, kind, apps, served, p[i]) && ServedAt(v, kind, apps', served', i);
    if Wants(v, apps'[i]) {
      AloneChosen(v, kind, apps, served, p[i]);
      AloneChosen(v, kind, apps', served', i);
      ChosenIsUnique(IndexFor(v, kind), apps'[i], {}, FullFor(v, kind), IgnoreFor(v, kind), served[p[i]], served'[i]);
    }
  }

  /** Without that the order does matter: of two apps that both suit the one entry of their tier, the
      one that is listed first gets it, whichever that is. */
  lemma FirstComeFirstServed(v: Server, kind: RequestType, q: AppRequest, r: AppRequest, k: nat,
                             served: seq<Option<nat>>)
    requires Served(v, kind, [q, r], served) && Wants(v, q) && Wants(v, r) && k < |IndexFor(v, kind)|
    requires FirstTier(IndexFor(v, kind), q, IgnoreFor(v, kind)) == {k} ==
             FirstTier(IndexFor(v, kind), r, IgnoreFor(v, kind))
    requires if IndexFor(v, kind)[k].isDelta then q.deltaOkay && FullFor(v, kind) != Some(true)
             else FullFor(v, kind) != Some(false)
    ensures served == [Some(k), None]
  {
    hide FirstTier, InTier;
    assert ServedAt(v, kind, [q, r], served, 0) && ServedAt(v, kind, [q, r], served, 1);
    assert served[..0] == [];
    assert served[..1][0] == served[0];
    assert k in {k} - Given(served[..0]);
    assert served[0] == Some(k);
    assert {k} - Given(served[..1]) == {};
  }

  /** A request has only one answer. */
  lemma {:induction false} ServedIsUnique(v: Server, kind: RequestType, apps: seq<AppRequest>, r: seq<Option<nat>>,
                                          s: seq<Option<nat>>, i: nat)
    requires Served(v, kind, apps, r) && Served(v, kind, apps, s) && i <= |apps|
    ensures r[..i] == s[..i]
  {
    if i > 0 {
      ServedIsUnique(v, kind, apps, r, s, i - 1);
      hide Chosen;
      assert ServedAt(v, kind, apps, r, i - 1) && ServedAt(v, kind, apps, s, i - 1);
      if Wants(v, apps[i - 1]) {
        ChosenIsUnique(IndexFor(v, kind), apps[i - 1], Given(r[..i - 1]), FullFor(v, kind), IgnoreFor(v, kind),
                       r[i - 1], s[i - 1]);
      }
      assert r[..i] == r[..i - 1] + [r[i - 1]] && s[..i] == s[..i - 1] + [s[i - 1]];
    }
  }

  /** One response being compiled: the entries given away so far. */
  class Response {
    const index: seq<AppData>
    const full: Option<bool>
    const ignoreAppid: bool
    var matched: set<nat>

    constructor (index: seq<AppData>, full: Option<bool>, ignoreAppid: bool)
      ensures this.index == index && this.full == full && this.ignoreAppid == ignoreAppid && matched == {}
    {
      this.index, this.full, this.ignoreAppid, matched := index, full, ignoreAppid, {};
    }

    /** The chain of list comprehensions at the head of Find. */
    method FirstMatches(q: AppRequest) returns (r: seq<nat>)
      ensures Lists(r, FirstTier(index, q, ignoreAppid), |index|)
    {
      TierListed(index, q, Exact);
      TierListed(index, q, Canary);
      TierListed(index, q, Partial);
      TierListed(index, q, Anything);
      hide InTier, Lists, Matching;
      r := Matching(index, q, Exact);
      if r == [] {
        r := Matching(index, q, Canary);
      }
      if r == [] {
        r := Matching(index, q, Partial);
      }
      if r == [] && ignoreAppid {
        r := Matching(index, q, Anything);
      }
    }

    /** What is left of the first tier. */
    method Candidates(q: AppRequest) returns (r: seq<nat>)
      ensures Lists(r, FirstTier(index, q, ignoreAppid) - matched, |index|)
    {
      var tier := FirstMatches(q);
      UntakenExact(tier, matched, |index|);
      hide FirstTier;
      r := Untaken(tier, matched);
    }

    method Find(q: AppRequest) returns (r: Option<nat>)
      modifies this
      ensures Chosen(index, q, old(matched), full, ignoreAppid, r)
      ensures matched == old(matched) + if r.Some? then {r.value} else {}
    {
      hide FirstTier;
      var matches := Candidates(q);
      FirstOfExact(index, matches, false);
      FirstOfExact(index, matches, true);
      var fullMatch, deltaMatch := FirstOf(index, matches, false), FirstOf(index, matches, true);
      hide FirstOf, Ascending, Within;
      if full == Some(false) && !q.deltaOkay {
        return None;
      }
      if full == Some(true) || !q.deltaOkay {
        r := fullMatch;
      } else {
        r := if full == Some(false) || deltaMatch.Some? then deltaMatch else fullMatch;
      }
      if r.Some? {
        matched := matched + {r.value};
      }
    }
  }

  /** The entry that an answer carries. */
  function Carried(a: Answer): Option<nat> {
    if a.updateCheck.Payload? then Some(a.updateCheck.position) else None
  }

  ghost function AllCarried(answers: seq<Answer>): (r: seq<Option<nat>>)
    ensures |r| == |answers|
  {
    seq(|answers|, i requires 0 <= i < |answers| => Carried(answers[i]))
  }

  /** GetXMLString: one answer for each app, in the order of the request, and what the answers carry
      is what is chosen for the apps one after another. */
  method Respond(v: Server, kind: RequestType, apps: seq<AppRequest>) returns (answers: seq<Answer>)
    ensures |answers| == |apps| && Served(v, kind, apps, AllCarried(answers))
    ensures forall i :: 0 <= i < |apps| ==> answers[i] == AnswerTo(apps[i], Carried(answers[i]))
  {
    hide Chosen, FirstTier;
    var response := new Response(IndexFor(v, kind), FullFor(v, kind), IgnoreFor(v, kind));
    answers := [];
    for i := 0 to |apps|
      invariant response.index == IndexFor(v, kind) && response.full == FullFor(v, kind)
                && response.ignoreAppid == IgnoreFor(v, kind)
      invariant |answers| == i && response.matched == Given(AllCarried(answers))
      invariant forall j :: 0 <= j < i ==> answers[j] == AnswerTo(apps[j], Carried(answers[j]))
      invariant forall j :: 0 <= j < i ==> ServedAt(v, kind, apps[..i], AllCarried(answers), j)
    {
      var q := apps[i];
      var found: Option<nat> := None;
      if Wants(v, q) {
        found := response.Find(q);
      }
      ghost var before := AllCarried(answers);
      answers := answers + [AnswerTo(q, found)];
      assert Carried(AnswerTo(q, found)) == found;
      ghost var served, done := AllCarried(answers), apps[..i + 1];
      assert served == before + [found];
      assert served[..i] == before && served[..i + 1] == served;
      GivenNext(served, i);
      forall j | 0 <= j <= i ensures ServedAt(v, kind, done, served, j) {
        if j < i {
          assert ServedAt(v, kind, apps[..i], before, j);
          assert served[..j] == before[..j];
        }
      }
    }
    assert apps[..|apps|] == apps;
  }
}
