/** The requests that the Omaha server for tests accepts, and their kinds (nebraska/nebraska.py). */
module OmahaRequest {
  import opened Prelude

  datatype RequestType = Install | Update | Event

  /** An app element of the XML request; None is a missing attribute. */
  datatype AppElement = AppElement(
    appid: Option<string>,
    version: Option<string>,
    track: Option<string>,
    board: Option<string>,
    deltaOkay: bool,
    hasUpdateCheck: bool)

  datatype AppRequest = AppRequest(kind: RequestType, appid: string, version: string, deltaOkay: bool,
                                   hasUpdateCheck: bool)

  datatype Request =
    | Request(kind: RequestType, apps: seq<AppRequest>, version: string, track: string, board: string)
    | InvalidRequest

  const VERSION_ZERO := "0.0.0.0"

  // ---------- the kind of a request ----------

  /** The value that all the apps which have the attribute agree on. */
  datatype Agreed = Agreed(value: Option<string>) | Disagreed

  /** v is what the values other than `ignore` all are; `ignore` itself if there are none. */
  ghost predicate AgreeOn(values: seq<Option<string>>, ignore: Option<string>, v: Option<string>) {
    && (forall x <- values :: x == ignore || x == v)
    && (v == ignore || v in values)
  }

  ghost predicate Agree(values: seq<Option<string>>, ignore: Option<string>) {
    forall x <- values, y <- values :: x == ignore || y == ignore || x == y
  }

  method CheckAttribute(values: seq<Option<string>>, inAll: bool, ignore: Option<string>) returns (r: Agreed)
    ensures r.Disagreed? <==> (inAll && ignore in values) || !Agree(values, ignore)
    ensures r.Agreed? ==> AgreeOn(values, ignore, r.value)
  {
    if inAll && ignore in values {
      return Disagreed;
    }
    var unique := set x | x in values && x != ignore;
    if unique == {} {
      assert forall x <- values :: x == ignore by {
        forall x <- values ensures x == ignore {
          assert x !in unique;
        }
      }
      return Agreed(ignore);
    }
    var v :| v in unique;
    if unique - {v} != {} {
      var w :| w in unique - {v};
      return Disagreed;
    }
    forall x <- values | x != ignore ensures x == v {
      assert x in unique;
      assert x !in unique - {v};
    }
    return Agreed(v);
  }

  function Versions(elements: seq<AppElement>): seq<Option<string>> {
    seq(|elements|, i requires 0 <= i < |elements| => elements[i].version)
  }

  function Tracks(elements: seq<AppElement>): seq<Option<string>> {
    seq(|elements|, i requires 0 <= i < |elements| => elements[i].track)
  }

  function Boards(elements: seq<AppElement>): seq<Option<string>> {
    seq(|elements|, i requires 0 <= i < |elements| => elements[i].board)
  }

  /** Only the i-th app asks for no update. */
  ghost predicate OnlySilent(elements: seq<AppElement>, i: nat) {
    i < |elements| && forall j :: 0 <= j < |elements| ==> (elements[j].hasUpdateCheck <==> j != i)
  }

  /** No app asks for an update, or all do, or all but one: the platform app of an install. */
  ghost predicate IsOfKind(elements: seq<AppElement>, kind: RequestType) {
    match kind
    case Event => forall e <- elements :: !e.hasUpdateCheck
    case Update => elements != [] && forall e <- elements :: e.hasUpdateCheck
    case Install => |elements| > 1 && exists i: nat :: OnlySilent(elements, i)
  }

  lemma KindIsUnique(elements: seq<AppElement>, k: RequestType, l: RequestType)
    requires IsOfKind(elements, k) && IsOfKind(elements, l)
    ensures k == l
  {
    if k == Install || l == Install {
      var i: nat :| OnlySilent(elements, i);
      assert elements[i] in elements && elements[if i == 0 then 1 else 0] in elements;
    } else if elements != [] {
      assert elements[0] in elements;
    }
  }

  /** The number of apps that ask for an update. */
  function UpdateChecks(elements: seq<AppElement>): nat {
    if elements == [] then 0
    else UpdateChecks(elements[..|elements| - 1]) + if elements[|elements| - 1].hasUpdateCheck then 1 else 0
  }

  lemma {:induction false} NoneOrAll(elements: seq<AppElement>)
    ensures UpdateChecks(elements) <= |elements|
    ensures UpdateChecks(elements) == 0 <==> forall i :: 0 <= i < |elements| ==> !elements[i].hasUpdateCheck
    ensures UpdateChecks(elements) == |elements| <==> forall i :: 0 <= i < |elements| ==> elements[i].hasUpdateCheck
  {
    if elements != [] {
      NoneOrAll(elements[..|elements| - 1]);
    }
  }

  lemma {:induction false} AllButOne(elements: seq<AppElement>)
    ensures UpdateChecks(elements) == |elements| - 1 <==> exists i: nat :: OnlySilent(elements, i)
  {
    if elements != [] {
      var init := elements[..|elements| - 1];
      NoneOrAll(init);
      AllButOne(init);
      if UpdateChecks(elements) == |elements| - 1 {
        if elements[|elements| - 1].hasUpdateCheck {
          var i: nat :| OnlySilent(init, i);
          assert OnlySilent(elements, i);
        } else {
          assert OnlySilent(elements, |elements| - 1);
        }
      }
      if i: nat :| OnlySilent(elements, i) {
        if i < |elements| - 1 {
          assert OnlySilent(init, i);
        }
      }
    }
  }

  lemma KindByCount(elements: seq<AppElement>)
    ensures IsOfKind(elements, Event) <==> UpdateChecks(elements) == 0
    ensures IsOfKind(elements, Install) <==> UpdateChecks(elements) != 0 && UpdateChecks(elements) == |elements| - 1
    ensures IsOfKind(elements, Update) <==> UpdateChecks(elements) != 0 && UpdateChecks(elements) == |elements|
  {
    NoneOrAll(elements);
    AllButOne(elements);
    assert forall i :: 0 <= i < |elements| ==> elements[i] in elements;
  }

  /** A request that is not refused: it is of a kind, no app lacks its id or version, and the apps
      agree on version, track and board. */
  ghost predicate IsAcceptable(elements: seq<AppElement>, kind: RequestType) {
    && IsOfKind(elements, kind)
    && (forall e <- elements :: e.appid.Some? && e.version.Some?)
    && Agree(Versions(elements), if kind == Update then None else Some(VERSION_ZERO))
    && Agree(Tracks(elements), None) && (exists e <- elements :: e.track.Some?)
    && Agree(Boards(elements), None) && (exists e <- elements :: e.board.Some?)
  }

  /** ParseApp */
  function AppOf(kind: RequestType, e: AppElement): AppRequest
    requires e.appid.Some? && e.version.Some?
  {
    AppRequest(kind, e.appid.value, e.version.value, e.deltaOkay, e.hasUpdateCheck)
  }

  /** ParseRequest: refuses exactly what is not acceptable, and keeps the apps in their order. */
  method ParseRequest(elements: seq<AppElement>) returns (r: Request)
    ensures r.InvalidRequest? <==> forall kind :: !IsAcceptable(elements, kind)
    ensures r.Request? ==> IsAcceptable(elements, r.kind) && |r.apps| == |elements|
    ensures r.Request? ==> forall i :: 0 <= i < |elements| ==>
              elements[i].appid.Some? && elements[i].version.Some? && r.apps[i] == AppOf(r.kind, elements[i])
    ensures r.Request? ==>
            AgreeOn(Tracks(elements), None, Some(r.track)) && AgreeOn(Boards(elements), None, Some(r.board))
    ensures r.Request? ==>
            AgreeOn(Versions(elements), if r.kind == Update then None else Some(VERSION_ZERO), Some(r.version))
    ensures r.Request? ==> forall i :: 0 <= i < |elements| ==>
              var e := elements[i];
              && e.appid.Some? && e.version.Some?
              && r.apps[i] == AppRequest(r.kind, e.appid.value, e.version.value, e.deltaOkay, e.hasUpdateCheck)
    ensures r.Request? ==> forall i :: 0 <= i < |elements| ==>
              && (elements[i].track == None || elements[i].track == Some(r.track))
              && (elements[i].board == None || elements[i].board == Some(r.board))
              && (elements[i].version == Some(r.version) ||
                  (r.kind != Update && elements[i].version == Some("0.0.0.0")))
  {
    var checks := UpdateChecks(elements);
    KindByCount(elements);
    var kind;
    if checks == 0 {
      kind := Event;
    } else if checks == |elements| - 1 {
      kind := Install;
    } else if checks == |elements| {
      kind := Update;
    } else {
      return InvalidRequest;
    }
    forall k | IsOfKind(elements, k) ensures k == kind {
      KindIsUnique(elements, k, kind);
    }
    var apps := [];
    for i := 0 to |elements|
      invariant |apps| == i
      invariant forall j :: 0 <= j < i ==>
                elements[j].appid.Some? && elements[j].version.Some? && apps[j] == AppOf(kind, elements[j])
    {
      if elements[i].appid == None || elements[i].version == None {
        assert elements[i] in elements;
        return InvalidRequest;
      }
      apps := apps + [AppOf(kind, elements[i])];
    }
    var version :=
      CheckAttribute(Versions(elements), kind == Update, if kind == Update then None else Some(VERSION_ZERO));
    assert None !in Versions(elements);
    if version.Disagreed? {
      return InvalidRequest;
    }
    var track := CheckAttribute(Tracks(elements), false, None);
    if track.Disagreed? {
      return InvalidRequest;
    }
    var board := CheckAttribute(Boards(elements), false, None);
    if board.Disagreed? {
      return InvalidRequest;
    }
    SomeAttribute(elements);
    if track.value == None || board.value == None {
      return InvalidRequest;
    }
    if kind == Update {
      assert elements[0] in elements && Versions(elements)[0] in Versions(elements);
    }
    assert track.value in Tracks(elements) && board.value in Boards(elements);
    forall e <- elements ensures e.appid.Some? && e.version.Some? {
      var i :| 0 <= i < |elements| && elements[i] == e;
    }
    assert IsAcceptable(elements, kind);
    AgreedInFields(elements, if kind == Update then None else Some(VERSION_ZERO), version.value.value,
                   track.value.value, board.value.value);
    return Request(kind, apps, version.value.value, track.value.value, board.value.value);
  }

  lemma AgreeByPosition(values: seq<Option<string>>, ignore: Option<string>)
    ensures Agree(values, ignore) <==>
            forall i, j :: 0 <= i < |values| && 0 <= j < |values| ==>
              values[i] == ignore || values[j] == ignore || values[i] == values[j]
  {
    if Agree(values, ignore) {
      forall i, j | 0 <= i < |values| && 0 <= j < |values|
        ensures values[i] == ignore || values[j] == ignore || values[i] == values[j]
      {
        assert values[i] in values && values[j] in values;
      }
    }
  }

  lemma VersionsAgree(elements: seq<AppElement>, ignore: Option<string>)
    ensures Agree(Versions(elements), ignore) <==>
            forall i, j :: 0 <= i < |elements| && 0 <= j < |elements| ==>
              || elements[i].version == ignore || elements[j].version == ignore
              || elements[i].version == elements[j].version
  {
    AgreeByPosition(Versions(elements), ignore);
    hide Agree;
    assert forall i :: 0 <= i < |elements| ==> Versions(elements)[i] == elements[i].version;
  }

  lemma TracksAgree(elements: seq<AppElement>)
    ensures Agree(Tracks(elements), None) <==>
            forall i, j :: 0 <= i < |elements| && 0 <= j < |elements| ==>
              elements[i].track == None || elements[j].track == None || elements[i].track == elements[j].track
  {
    AgreeByPosition(Tracks(elements), None);
    hide Agree;
    assert forall i :: 0 <= i < |elements| ==> Tracks(elements)[i] == elements[i].track;
  }

  lemma BoardsAgree(elements: seq<AppElement>)
    ensures Agree(Boards(elements), None) <==>
            forall i, j :: 0 <= i < |elements| && 0 <= j < |elements| ==>
              elements[i].board == None || elements[j].board == None || elements[i].board == elements[j].board
  {
    AgreeByPosition(Boards(elements), None);
    hide Agree;
    assert forall i :: 0 <= i < |elements| ==> Boards(elements)[i] == elements[i].board;
  }

  lemma KindInFields(elements: seq<AppElement>, kind: RequestType)
    ensures IsOfKind(elements, kind) <==>
            match kind
            case Event => forall i :: 0 <= i < |elements| ==> !elements[i].hasUpdateCheck
            case Update => elements != [] && forall i :: 0 <= i < |elements| ==> elements[i].hasUpdateCheck
            case Install => |elements| > 1 && exists i: nat :: OnlySilent(elements, i)
  {
    assert forall i :: 0 <= i < |elements| ==> elements[i] in elements;
  }

  /** What is accepted, attribute by attribute: no app asks for an update, or all do, or all but one;
      none lacks its id or version; versions are the same, those of events and installs but for the
      dummy one; and the tracks that are given are the same, and at least one is, as with boards. */
  lemma AcceptableInFields(elements: seq<AppElement>, kind: RequestType)
    ensures IsAcceptable(elements, kind) <==>
            && (match kind
                case Event => forall i :: 0 <= i < |elements| ==> !elements[i].hasUpdateCheck
                case Update => elements != [] && forall i :: 0 <= i < |elements| ==> elements[i].hasUpdateCheck
                case Install => |elements| > 1 && exists i: nat :: OnlySilent(elements, i))
            && (forall e <- elements :: e.appid.Some? && e.version.Some?)
            && (var dummy := if kind == Update then None else Some("0.0.0.0");
                forall i, j :: 0 <= i < |elements| && 0 <= j < |elements| ==>
                  || elements[i].version == dummy || elements[j].version == dummy
                  || elements[i].version == elements[j].version)
            && (forall i, j :: 0 <= i < |elements| && 0 <= j < |elements| ==>
                  elements[i].track == None || elements[j].track == None || elements[i].track == elements[j].track)
            && (forall i, j :: 0 <= i < |elements| && 0 <= j < |elements| ==>
                  elements[i].board == None || elements[j].board == None || elements[i].board == elements[j].board)
            && (exists e <- elements :: e.track.Some?) && (exists e <- elements :: e.board.Some?)
  {
    KindInFields(elements, kind);
    VersionsAgree(elements, if kind == Update then None else Some(VERSION_ZERO));
    TracksAgree(elements);
    BoardsAgree(elements);
    hide Agree, IsOfKind, OnlySilent, Versions, Tracks, Boards;
  }

  lemma AgreeOnByPosition(values: seq<Option<string>>, ignore: Option<string>, v: Option<string>)
    requires AgreeOn(values, ignore, v)
    ensures forall i :: 0 <= i < |values| ==> values[i] == ignore || values[i] == v
  {
    forall i | 0 <= i < |values| ensures values[i] == ignore || values[i] == v {
      assert values[i] in values;
    }
  }

  /** The agreed values are those of the apps. */
  lemma AgreedInFields(elements: seq<AppElement>, ignore: Option<string>, version: string, track: string,
                       board: string)
    requires AgreeOn(Versions(elements), ignore, Some(version))
    requires AgreeOn(Tracks(elements), None, Some(track)) && AgreeOn(Boards(elements), None, Some(board))
    ensures forall i :: 0 <= i < |elements| ==>
              && (elements[i].track == None || elements[i].track == Some(track))
              && (elements[i].board == None || elements[i].board == Some(board))
              && (elements[i].version == ignore || elements[i].version == Some(version))
  {
    AgreeOnByPosition(Versions(elements), ignore, Some(version));
    AgreeOnByPosition(Tracks(elements), None, Some(track));
    AgreeOnByPosition(Boards(elements), None, Some(board));
    hide AgreeOn;
    forall i | 0 <= i < |elements|
      ensures Versions(elements)[i] == elements[i].version
      ensures Tracks(elements)[i] == elements[i].track && Boards(elements)[i] == elements[i].board
    {
    }
  }

  lemma SomeAttribute(elements: seq<AppElement>)
    ensures (exists e <- elements :: e.track.Some?) <==> exists v <- Tracks(elements) :: v != None
    ensures (exists e <- elements :: e.board.Some?) <==> exists v <- Boards(elements) :: v != None
  {
    forall e <- elements ensures e.track in Tracks(elements) && e.board in Boards(elements) {
      var i :| 0 <= i < |elements| && elements[i] == e;
      assert Tracks(elements)[i] == e.track && Boards(elements)[i] == e.board;
    }
    forall v <- Tracks(elements) ensures exists e <- elements :: e.track == v {
      var i :| 0 <= i < |elements| && Tracks(elements)[i] == v;
      assert elements[i] in elements;
    }
    forall v <- Boards(elements) ensures exists e <- elements :: e.board == v {
      var i :| 0 <= i < |elements| && Boards(elements)[i] == v;
      assert elements[i] in elements;
    }
  }
}
