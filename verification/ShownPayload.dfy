/** The payload a preview shows against the one the worker posts, both built from
    one form page: the preview adds the link parameters the form lacks, the
    worker injects the step that sending pins. */
module ShownPayload {
  import opened Wrappers
  import opened Ops
  import opened Digits
  import opened Payload
  import opened Protocol
  import ProtocolInvariant

  /** The parameters of the link to the write form. */
  const PARAM_NAMES: set<string> := {"X1", "X2", "EDU", "DEG_COD", "college", "dept", "grade", "SCH_COD", "USE_YR"}

  predicate IsParams(params: Form) {
    params.Keys <= PARAM_NAMES
  }

  /** A parameter counts only where the page has no hidden input of its name. */
  function WithParams(page: Page, params: Form): Page {
    page.(hidden := params + page.hidden)
  }

  /** What the preview answers with. */
  function Shown(ops: seq<Op>, variant: string, page: Page, params: Form): Result<Form, BuildError> {
    BuiltForm(ops, HiddenOf(WithParams(page, params)), DefaultRows(variant))
  }

  function Rows(variant: string, page: Page): nat {
    RowsTotal(HiddenOf(page), DefaultRows(variant))
  }

  /** The worker can post: the page names an action and has the rows. */
  predicate Fits(ops: seq<Op>, variant: string, page: Page) {
    page.action.Some? && variant in {VARIANT_SSFORM, VARIANT_STAGE5} && |ops| <= Rows(variant, page)
  }

  /** That is when there is a payload. */
  lemma FitsExactly(ops: seq<Op>, variant: string, page: Page)
    ensures Fits(ops, variant, page) <==> PayloadFor(ops, variant, page).Some?
  {
    BuiltFormIsBuild(ops, HiddenOf(page), DefaultRows(variant));
  }

  /** No parameter is a slot, the send button, the step or the row count. */
  lemma ParamsAreOther(key: string, rows: nat)
    requires key in {"X1", "X2", "EDU", "DEG_COD", "college", "dept", "grade", "SCH_COD", "USE_YR"}
    ensures !Slot(key, rows) && key != SEND_NAME && key != "step" && key != "MAX_ADD"
  {
    assert key[1] == 'E' || key[0] !in "DCT";
    forall r | 1 <= r <= rows ensures !IsSlotOf(key, r) {
      DecimalIsDigits(r);
      assert D(r)[0] == 'D' && C(r)[0] == 'C' && T(r)[0] == 'T' && D(r)[1] == Decimal(r)[0];
    }
    assert |key| <= 7 && |"MAX_ADD"| == 7 && "MAX_ADD"[0] == 'M' && SEND_NAME[1] == 'e' && "step"[1] == 't';
  }

  /** The two forms have the same rows, so one is built exactly when the other is. */
  lemma SameRowCount(variant: string, page: Page, params: Form)
    requires IsParams(params)
    ensures Rows(variant, WithParams(page, params)) == Rows(variant, page)
  {
    assert "MAX_ADD" !in params by {
      if "MAX_ADD" in params {
        ParamsAreOther("MAX_ADD", 0);
      }
    }
    assert "MAX_ADD"[0] == 'M' && SEND_NAME[0] == 's';
  }

  lemma SlotsHold(payload: Form, ops: seq<Op>, rows: nat, other: Form, key: string)
    requires Carries(payload, ops, rows) && Carries(other, ops, rows) && Slot(key, rows)
    ensures SameAt(payload, other, key)
  {
    var r :| 1 <= r <= rows && IsSlotOf(key, r);
    assert ReadsBack(payload, r, RowOf(ops, r)) && ReadsBack(other, r, RowOf(ops, r));
  }

  predicate AgreesAt(shown: Form, posted: Form, page: Page, params: Form, key: string) {
    && (key != "step" && (key in params ==> key in page.hidden) ==> SameAt(shown, posted, key))
    && (key in params && key !in page.hidden ==> key in shown && key !in posted)
    && SameAt(shown, page.hidden, "step")
    && (if page.step.Some? then "step" in posted && posted["step"] == page.step.value
        else SameAt(posted, page.hidden, "step"))
  }

  /** Both carry the batch in the same rows, each drawn from its own page. */
  lemma BothDrawn(ops: seq<Op>, variant: string, page: Page, params: Form)
    requires IsParams(params) && Fits(ops, variant, page)
    ensures Shown(ops, variant, page, params).Ok? && PayloadFor(ops, variant, page).Some?
    ensures ProtocolInvariant.Drawn(Shown(ops, variant, page, params).value, Rows(variant, page), ops,
                                    WithParams(page, params).(step := None))
    ensures ProtocolInvariant.Drawn(PayloadFor(ops, variant, page).value.0, Rows(variant, page), ops, page)
  {
    hide ProtocolInvariant.Drawn, RowsTotal, Fill;
    SameRowCount(variant, page, params);
    ProtocolInvariant.PayloadForDraws(ops, variant, WithParams(page, params).(step := None));
    ProtocolInvariant.PayloadForDraws(ops, variant, page);
  }

  lemma DrawnAgree(shown: Form, posted: Form, rows: nat, ops: seq<Op>, page: Page, params: Form, key: string)
    requires IsParams(params)
    requires ProtocolInvariant.Drawn(shown, rows, ops, WithParams(page, params).(step := None))
    requires ProtocolInvariant.Drawn(posted, rows, ops, page)
    ensures AgreesAt(shown, posted, page, params, key)
  {
    hide Carries, Slot;
    forall name | name in params ensures !Slot(name, rows) && name != SEND_NAME && name != "step" {
      ParamsAreOther(name, rows);
    }
    if Slot(key, rows) {
      SlotsHold(shown, ops, rows, posted, key);
    }
  }

  /** Where the shown and the posted form agree: they carry the batch in the same
      rows and differ at most in an added parameter and the step. */
  lemma AgreeOutsideAdded(ops: seq<Op>, variant: string, page: Page, params: Form)
    requires IsParams(params) && Fits(ops, variant, page)
    ensures Shown(ops, variant, page, params).Ok? && PayloadFor(ops, variant, page).Some?
    ensures var shown := Shown(ops, variant, page, params).value; var posted := PayloadFor(ops, variant, page).value.0;
      && Carries(shown, ops, Rows(variant, page)) && Carries(posted, ops, Rows(variant, page))
      && forall key :: AgreesAt(shown, posted, page, params, key)
  {
    hide Shown, PayloadFor, Fits, Carries, AgreesAt, Rows;
    BothDrawn(ops, variant, page, params);
    var shown, posted := Shown(ops, variant, page, params).value, PayloadFor(ops, variant, page).value.0;
    forall key ensures AgreesAt(shown, posted, page, params, key) {
      DrawnAgree(shown, posted, Rows(variant, page), ops, page, params, key);
    }
  }

  predicate NothingPinned(page: Page) {
    page.step.Some? ==> "step" in page.hidden && page.hidden["step"] == page.step.value
  }

  lemma EqualExactly(shown: Form, posted: Form, page: Page, params: Form)
    requires IsParams(params) && forall key :: AgreesAt(shown, posted, page, params, key)
    ensures shown == posted <==> params.Keys <= page.hidden.Keys && NothingPinned(page)
  {
    assert AgreesAt(shown, posted, page, params, "step");
    if params.Keys <= page.hidden.Keys && NothingPinned(page) {
      forall key
        ensures (key in shown <==> key in posted) && (key in shown ==> shown[key] == posted[key])
      {
        assert AgreesAt(shown, posted, page, params, key);
      }
      assert shown.Keys == posted.Keys;
      assert shown == posted;
    }
    if shown == posted {
      forall key | key in params ensures key in page.hidden {
        assert AgreesAt(shown, posted, page, params, key);
      }
    }
  }

  /** The previewed payload is the posted one exactly when every parameter is a
      hidden input already and sending pins no step the form does not have. */
  lemma ShownIsPostedExactly(ops: seq<Op>, variant: string, page: Page, params: Form)
    requires IsParams(params) && Fits(ops, variant, page)
    ensures Shown(ops, variant, page, params).Ok? && PayloadFor(ops, variant, page).Some?
    ensures Shown(ops, variant, page, params).value == PayloadFor(ops, variant, page).value.0 <==>
      params.Keys <= page.hidden.Keys && NothingPinned(page)
  {
    hide Shown, PayloadFor, Fits, AgreesAt;
    AgreeOutsideAdded(ops, variant, page, params);
    EqualExactly(Shown(ops, variant, page, params).value, PayloadFor(ops, variant, page).value.0, page, params);
  }

  /** The form as the school serves it: its hidden step is blank, sending pins 2. */
  lemma LiveFormIsNotAsShown(ops: seq<Op>, variant: string, page: Page, params: Form)
    requires IsParams(params) && Fits(ops, variant, page)
    requires "step" in page.hidden && page.hidden["step"] == "" && page.step == Some("2")
    ensures Shown(ops, variant, page, params).Ok? && PayloadFor(ops, variant, page).Some?
    ensures var shown := Shown(ops, variant, page, params).value; var posted := PayloadFor(ops, variant, page).value.0;
      "step" in shown && shown["step"] == "" && "step" in posted && posted["step"] == "2" && shown != posted
  {
    hide Shown, PayloadFor, Fits;
    AgreeOutsideAdded(ops, variant, page, params);
    var shown, posted := Shown(ops, variant, page, params).value, PayloadFor(ops, variant, page).value.0;
    assert AgreesAt(shown, posted, page, params, "step");
  }
}
