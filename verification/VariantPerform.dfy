/** One turn of new_variant's main loop over the mutable status, proved to be one of the transitions
    that the runs are made of (contrib/variant/new_variant.py). */
module VariantPerform {
  import opened Prelude
  import opened VariantStatus
  import opened VariantRuns

  /** The answers that git, gerrit and the scripts give during one step. */
  datatype World = World(
    find: string -> Option<Cl>,
    upload: (string, string) -> bool,
    findAgain: string -> Option<Cl>,
    upstream: string -> seq<Cl>,
    amend: string -> bool,
    abandon: (string, string) -> bool,
    made: Option<Commit>,                  // the commit that the step's script has made
    ok: bool)                              // the result of any other step

  /** Saves the status and performs the step it names.  If the step succeeds, memory and file are
      those of a Succeed event after a Save; if not, the file is that of a Stop event. */
  method SaveAndPerform(st: VariantStatus, w: World) returns (r: Outcome, uploaded: set<(string, string)>)
    requires st.step.Some? && st.board.depends.Keys == Elements(st.board.dependKeys)
    requires CreatedBy(st.step.value).Some? && w.made.Some? ==>
               NewRecord(st.commits, st.messages, CreatedBy(st.step.value).value, w.made.value)
    modifies st
    ensures st.step == old(st.step)
    ensures r == True ==> StepOk(st.board, st.step.value, old(st.commits), old(st.messages), st.commits, st.messages)
    ensures r == True ==> st.file == if st.step.value == CLEAN_UP then None
                                     else if st.step.value in [PUSH, UPLOAD] then Some(Saved(st.step, st.commits))
                                     else Some(Saved(st.step, old(st.commits)))
    ensures r == True && st.step.value == RE_UPLOAD ==>
              forall k <- old(st.commits) | old(st.commits)[k].needsReUpload ::
                IsPlace(old(st.commits)[k]) && PlaceOf(old(st.commits)[k]) in uploaded
    ensures r != True ==>
              && st.file.Some? && st.file.value.step == st.step
              && StepPartial(st.board, st.step.value, old(st.commits), old(st.messages), st.file.value.commits,
                             st.messages)
  {
    assert CreatedBy(CLEAN_UP) == None && CreatedBy(ABORT) == None;
    assert PUSH != CLEAN_UP && UPLOAD != CLEAN_UP && FIND != CLEAN_UP && CALC_CQ_DEPEND != CLEAN_UP;
    assert ADD_CQ_DEPEND != CLEAN_UP && RE_UPLOAD != CLEAN_UP && ABORT != CLEAN_UP;
    hide CreatedBy, HasCl, CanCalc, Calculated, NewRecord, Amended;
    var step := st.step.value;
    uploaded := {};
    st.Save();
    if step == PUSH {
      r := st.PushCoreboot(w.find);
    } else if step == UPLOAD {
      r := st.UploadCls(w.find, w.upload, w.findAgain);
    } else if step == FIND {
      r := st.FindCorebootUpstream(w.upstream);
    } else if step == CALC_CQ_DEPEND {
      r := st.CalcCqDepend();
    } else if step == ADD_CQ_DEPEND {
      r := st.AddCqDepend(w.amend);
    } else if step == RE_UPLOAD {
      r, uploaded := st.ReUpload(w.upload);
    } else if CreatedBy(step).Some? {
      if w.made.Some? {
        st.commits := st.commits[CreatedBy(step).value := w.made.value];
      }
      r := if w.made.Some? && w.ok then True else False;
    } else if step == ABORT {
      var places;
      r, places := st.Abort(w.abandon);
    } else if step == CLEAN_UP {
      st.file := None;
      r := True;
    } else {
      r := if w.ok then True else False;
    }
  }
}
