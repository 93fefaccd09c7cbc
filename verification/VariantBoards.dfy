/** Two of the board tables of new_variant, and what runs for them come to
    (contrib/variant/trembyle.py, contrib/variant/hatch.py). */
module VariantBoards {
  import opened Prelude
  import opened VariantStatus
  import opened VariantRuns
  import opened VariantCqDepend
  import opened VariantCqRuns

  const TREMBYLE := Board(
    ["project_config", "fw_build_config", "cb_variant", "cb_config", "cras_config", "ec_image", "emerge",
     "push", "find", "upload", "calc_cq_depend", "add_cq_depend", "re_upload", "clean_up"],
    ["cb_variant"],
    ["cb_config", "cras_config", "ec_image", "fw_build_config"],
    ["cb_config", "fw_build_config"],
    map["cb_config" := ["find"],
        "fw_build_config" := ["find", "cb_config", "cras_config", "ec_image", "commit_fit"]])

  const HATCH := Board(
    ["cb_variant", "cb_config", "add_fit", "gen_fit", "commit_fit", "ec_image", "add_pub_yaml", "add_priv_yaml",
     "build_config", "emerge", "push", "upload", "find", "calc_cq_depend", "add_cq_depend", "re_upload", "clean_up"],
    ["cb_variant"],
    ["cb_config", "commit_fit", "ec_image", "add_pub_yaml", "add_priv_yaml"],
    ["cb_config", "add_pub_yaml", "add_priv_yaml"],
    map["cb_config" := ["find"],
        "add_pub_yaml" := ["add_priv_yaml", "cb_config", "commit_fit", "ec_image"],
        "add_priv_yaml" := ["add_pub_yaml", "cb_config", "commit_fit", "ec_image"]])

  /** A number for the names of steps that tells those of one board apart. */
  ghost function Mark(s: string): int {
    if |s| < 5 then (if |s| == 0 then 0 else s[0] as int)
    else |s| * 1_000_000 + s[0] as int * 1_000 + s[4] as int
  }

  lemma DistinctByMark(steps: seq<string>, marks: seq<int>)
    requires |marks| == |steps| && forall i :: 0 <= i < |steps| ==> Mark(steps[i]) == marks[i]
    requires forall i, j :: 0 <= i < j < |marks| ==> marks[i] != marks[j]
    ensures Distinct(steps)
  {
    hide Mark;
    forall i, j | 0 <= i < j < |steps| ensures steps[i] != steps[j] {
      assert marks[i] != marks[j];
    }
  }

  lemma TrembyleIsBoard()
    ensures IsBoard(TREMBYLE)
  {
    DistinctByMark(TREMBYLE.stepList,
      [14112101, 15102117, 10099097, 9099111, 11099095, 8101109, 6101103, 112, 102, 6117097, 14099095, 13097099,
       9114112, 8099110]);
  }

  lemma TrembyleIsUnmet()
    ensures !DependsAreMet(TREMBYLE)
  {
    assert TREMBYLE.dependKeys[1] == "fw_build_config" && TREMBYLE.depends["fw_build_config"][4] == "commit_fit";
    forall s <- TREMBYLE.stepList ensures CreatedBy(s) != Some("commit_fit") {
    }
    assert !Known(TREMBYLE, "commit_fit");
    hide Known, Provided;
    assert "fw_build_config" in TREMBYLE.dependKeys && "commit_fit" in TREMBYLE.depends["fw_build_config"];
  }

  /** The trembyle table wants the changelist of commit_fit, which none of its steps creates: no run
      of new_variant for that board ever gets past calc_cq_depend. */
  lemma TrembyleNeverCalculates(es: seq<Event>, c: Commits, m: map<string, string>)
    requires Run(TREMBYLE, INITIAL, es).Some?
    ensures var s := Run(TREMBYLE, INITIAL, es).value;
            s.proc.Some? && s.proc.value.step == Some(CALC_CQ_DEPEND) ==> !Allowed(TREMBYLE, s, Succeed(c, m))
  {
    TrembyleIsBoard();
    TrembyleIsUnmet();
    UnmetNeverCalculates(TREMBYLE, es, c, m);
  }

  lemma HatchSteps()
    ensures Distinct(HATCH.stepList)
  {
    DistinctByMark(HATCH.stepList,
      [10099097, 9099111, 7097102, 7103102, 10099105, 8101109, 12097112, 13097112, 12098100, 6101103, 112, 6117097, 102,
       14099095, 13097099, 9114112, 8099110]);
  }

  lemma HatchIsBoard()
    ensures IsBoard(HATCH)
  {
    HatchSteps();
    hide Distinct;
  }

  lemma HatchCreatesFirst(i: nat)
    requires i < 17 && CreatedBy(HATCH.stepList[i]).Some?
    ensures i < 10
  {
  }

  lemma HatchAt(i: nat)
    requires i < 17
    ensures IndexOf(HATCH.stepList, HATCH.stepList[i]) == i
  {
    HatchSteps();
    IndexAt(HATCH.stepList, i);
  }

  lemma HatchInOrder()
    ensures InCqOrder(HATCH)
  {
    hide IndexOf, CreatedBy;
    assert CQ_STEPS == HATCH.stepList[10..16];
    HatchAt(13);
    HatchAt(14);
    HatchAt(15);
    forall s <- HATCH.stepList, t <- CQ_STEPS | CreatedBy(s).Some? ensures Before(HATCH, s, t) {
      var i :| 0 <= i < 17 && HATCH.stepList[i] == s;
      var j :| 10 <= j < 16 && HATCH.stepList[j] == t;
      HatchAt(i);
      HatchAt(j);
      HatchCreatesFirst(i);
    }
    assert FINDERS == HATCH.stepList[10..13];
    forall s <- FINDERS ensures Before(HATCH, s, CALC_CQ_DEPEND) {
      var i :| 10 <= i < 13 && HATCH.stepList[i] == s;
      HatchAt(i);
    }
  }

  lemma HatchKeys()
    ensures HATCH.depends.Keys == Elements(HATCH.dependKeys)
    ensures forall k <- HATCH.dependKeys :: k in HATCH.uploadList
  {
    var l, u := HATCH.dependKeys, HATCH.uploadList;
    assert l[0] == u[0] == "cb_config" && l[1] == u[3] == "add_pub_yaml" && l[2] == u[4] == "add_priv_yaml";
  }

  lemma MadeBy(b: Board, i: nat, j: nat)
    requires i < |b.stepList| && j < |OWN_COMMITS| && b.stepList[i] == OWN_COMMITS[j]
    ensures Created(b, OWN_COMMITS[j])
  {
    assert OWN_COMMITS[j] in OWN_COMMITS && b.stepList[i] in b.stepList;
    assert CreatedBy(b.stepList[i]) == Some(OWN_COMMITS[j]);
  }

  lemma FitMade(b: Board, i: nat)
    requires i < |b.stepList| && b.stepList[i] == "add_fit"
    ensures Created(b, "commit_fit")
  {
    assert b.stepList[i] in b.stepList && CreatedBy("add_fit") == Some("commit_fit");
  }

  lemma HatchConfigs()
    ensures Created(HATCH, "cb_variant") && Created(HATCH, "cb_config") && Created(HATCH, "commit_fit")
  {
    hide Created;
    MadeBy(HATCH, 0, 1);
    MadeBy(HATCH, 1, 2);
    FitMade(HATCH, 2);
  }

  lemma HatchYamls()
    ensures Created(HATCH, "ec_image") && Created(HATCH, "add_pub_yaml") && Created(HATCH, "add_priv_yaml")
  {
    hide Created;
    MadeBy(HATCH, 5, 4);
    MadeBy(HATCH, 6, 5);
    MadeBy(HATCH, 7, 6);
  }

  lemma HatchMakes(k: string)
    requires k in HATCH.uploadList || k in HATCH.pushList
    ensures Created(HATCH, k)
  {
    HatchConfigs();
    HatchYamls();
    hide Created;
  }

  lemma HatchKnows(d: string)
    requires d in HATCH.uploadList || d == FIND
    ensures Known(HATCH, d) && Provided(HATCH, d)
  {
    if d in HATCH.uploadList {
      HatchMakes(d);
    }
    hide Created;
    var l := HATCH.stepList;
    assert l[11] == UPLOAD && UPLOAD in l && l[12] == FIND && FIND in l;
  }

  lemma MetByEach(b: Board)
    requires b.depends.Keys == Elements(b.dependKeys) && forall k <- b.dependKeys :: Known(b, k)
    requires forall k, d | k in b.depends && d in b.depends[k] :: Known(b, d) && Provided(b, d)
    ensures DependsAreMet(b)
  {
    hide Known, Provided;
  }

  lemma HatchKeysKnown()
    ensures forall k <- HATCH.dependKeys :: Known(HATCH, k)
  {
    HatchKeys();
    hide Known, Provided;
    forall k <- HATCH.dependKeys ensures Known(HATCH, k) {
      HatchKnows(k);
    }
  }

  lemma HatchDependsKnown()
    ensures forall k, d | k in HATCH.depends && d in HATCH.depends[k] :: Known(HATCH, d) && Provided(HATCH, d)
  {
    hide Known, Provided;
    forall k, d | k in HATCH.depends && d in HATCH.depends[k] ensures Known(HATCH, d) && Provided(HATCH, d) {
      HatchDepends(k, d);
      HatchKnows(d);
    }
  }

  lemma HatchMeets()
    ensures HATCH.depends.Keys == Elements(HATCH.dependKeys) && DependsAreMet(HATCH)
  {
    hide Known, Provided, DependsAreMet;
    HatchKeys();
    HatchKeysKnown();
    HatchDependsKnown();
    MetByEach(HATCH);
  }

  lemma HatchDepends(k: string, d: string)
    requires k in HATCH.depends && d in HATCH.depends[k]
    ensures d in HATCH.uploadList || d == FIND
  {
    var u := HATCH.uploadList;
    assert u[0] == "cb_config" && u[1] == "commit_fit" && u[2] == "ec_image" && u[3] == "add_pub_yaml"
           && u[4] == "add_priv_yaml";
  }

  /** The hatch table is a proper one. */
  lemma HatchIsCqBoard()
    ensures IsCqBoard(HATCH)
  {
    hide IsBoard, InCqOrder, DependsAreMet;
    HatchMeets();
    HatchIsBoard();
    HatchInOrder();
  }
}
