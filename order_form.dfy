/**
 * The order button of `app/stock3.py` (`TradingApp.on_order_click`): the form's checks, the
 * arguments handed to the cash-order call, and the one line each click adds to the result
 * view. The order call itself is outside the model; its reply is an input.
 */
module OrderForm {
  import opened Wrappers
  import opened Text
  import opened Numerals

  const MsgMissing: string := "입력값 확인 필요"
  const MsgNotNumeric: string := "수량/단가 숫자 입력 필요"
  const MsgNotPositive: string := "수량/단가는 양수여야 함"
  const MsgNoReply: string := "주문 실패 또는 빈 응답"
  const ErrorPrefix: string := "에러: "

  /** The widgets' texts at the time of the click: three combo boxes and five line edits. */
  datatype Form = Form(
    envDv: string, ordDv: string, cano: string, acntPrdtCd: string, pdno: string,
    ordDvsn: string, qty: string, price: string)

  /** The outcome of the form's checks. */
  datatype Check = MissingInput | NotNumeric | NotPositive | Accepted(qty: int, price: int)

  /** One of the five line edits is blank once stripped. */
  predicate Missing(f: Form) {
    Strip(f.cano) == [] || Strip(f.acntPrdtCd) == [] || Strip(f.pdno) == [] ||
    Strip(f.qty) == [] || Strip(f.price) == []
  }

  /** The checks in their order: blanks first, then `int()` of quantity and price, then signs. */
  function Validate(f: Form): (c: Check)
    ensures c == MissingInput <==> Missing(f)
    ensures c == NotNumeric <==> !Missing(f) && (ParseInt(Strip(f.qty)).None? || ParseInt(Strip(f.price)).None?)
    ensures c == NotPositive <==> (!Missing(f) && ParseInt(Strip(f.qty)).Some? && ParseInt(Strip(f.price)).Some? &&
      (ParseInt(Strip(f.qty)).value <= 0 || ParseInt(Strip(f.price)).value <= 0))
    ensures c.Accepted? ==> c.qty > 0 && c.price > 0
    ensures c.Accepted? ==> ParseInt(Strip(f.qty)) == Some(c.qty) && ParseInt(Strip(f.price)) == Some(c.price)
  {
    if Missing(f) then MissingInput
    else
      var q := ParseInt(Strip(f.qty));
      var p := ParseInt(Strip(f.price));
      if q.None? || p.None? then NotNumeric
      else if q.value <= 0 || p.value <= 0 then NotPositive
      else Accepted(q.value, p.value)
  }

  /** The arguments of `order_cash`. */
  datatype OrderRequest = OrderRequest(
    envDv: string, ordDv: string, cano: string, acntPrdtCd: string, pdno: string,
    ordDvsn: string, ordQty: string, ordUnpr: string, excgIdDvsnCd: string)

  /**
   * The order for an accepted form: the account and product fields stripped, the other
   * choices passed through, quantity and price written so that `int` reads them back, and
   * the KRX exchange.
   */
  function Request(f: Form, qty: int, price: int): (r: OrderRequest)
    ensures r.cano == Strip(f.cano) && r.acntPrdtCd == Strip(f.acntPrdtCd) && r.pdno == Strip(f.pdno)
    ensures r.envDv == f.envDv && r.ordDv == f.ordDv && r.ordDvsn == f.ordDvsn
    ensures ParseInt(r.ordQty) == Some(qty) && ParseInt(r.ordUnpr) == Some(price)
    ensures r.excgIdDvsnCd == "KRX"
  {
    ParseShow(qty);
    ParseShow(price);
    OrderRequest(f.envDv, f.ordDv, Strip(f.cano), Strip(f.acntPrdtCd), Strip(f.pdno), f.ordDvsn,
      IntToString(qty), IntToString(price), "KRX")
  }

  /** What the order call gives back: a non-empty frame (as its text), nothing usable, or an exception. */
  datatype Reply = Rows(text: string) | NoRows | Raised(message: string)

  /**
   * The line a click adds to the result view: a form message for a refused form, otherwise
   * the reply's table, the empty-reply message or the error text.
   */
  function ClickMessage(f: Form, reply: Reply): (r: string)
    ensures !Validate(f).Accepted? ==> r in {MsgMissing, MsgNotNumeric, MsgNotPositive}
    ensures Missing(f) ==> r == MsgMissing
    ensures Validate(f).NotNumeric? ==> r == MsgNotNumeric
    ensures Validate(f).NotPositive? ==> r == MsgNotPositive
    ensures Validate(f).Accepted? && reply.Rows? ==> r == reply.text
    ensures Validate(f).Accepted? && reply.NoRows? ==> r == MsgNoReply
    ensures Validate(f).Accepted? && reply.Raised? ==> r == ErrorPrefix + reply.message
  {
    match Validate(f)
    case MissingInput => MsgMissing
    case NotNumeric => MsgNotNumeric
    case NotPositive => MsgNotPositive
    case Accepted(_, _) =>
      match reply
      case Rows(text) => text
      case NoRows => MsgNoReply
      case Raised(message) => ErrorPrefix + message
  }

  /**
   * The quantity and price sent denote the accepted numbers, written without sign or leading
   * zeros; every sent order carries the stripped account and product fields and names the
   * KRX exchange.
   */
  lemma RequestCarriesNumbers(f: Form, qty: int, price: int)
    requires qty > 0 && price > 0
    ensures ParseInt(Request(f, qty, price).ordQty) == Some(qty)
    ensures ParseInt(Request(f, qty, price).ordUnpr) == Some(price)
    ensures Request(f, qty, price).ordQty == NatToString(qty) && Request(f, qty, price).ordUnpr == NatToString(price)
    ensures Request(f, qty, price).cano == Strip(f.cano) && Request(f, qty, price).pdno == Strip(f.pdno)
    ensures Request(f, qty, price).acntPrdtCd == Strip(f.acntPrdtCd)
    ensures Request(f, qty, price).excgIdDvsnCd == "KRX"
  {
    ParseShow(qty);
    ParseShow(price);
  }

  /** `"007"` is read as 7 and sent as `"7"`; `"+1500"` is read as 1500 and sent as `"1500"`. */
  lemma LeadingZerosDropped()
    ensures ParseInt("007") == Some(7) && IntToString(7) == "7"
    ensures ParseInt("+1500") == Some(1500) && IntToString(1500) == "1500"
  {
    assert "007"[..2] == "00" && "00"[..1] == "0" && "0"[..0] == "";
    assert DigitsValue("007") == 7;
    assert "+1500"[1..] == "1500";
    assert "1500"[..3] == "150" && "150"[..2] == "15" && "15"[..1] == "1" && "1"[..0] == "";
    assert DigitsValue("1500") == 1500;
    assert NatToString(1500) == NatToString(150) + "0";
    assert NatToString(150) == NatToString(15) + "0";
    assert NatToString(15) == NatToString(1) + "5";
  }

  /** A refused form is never blamed on the broker: its line is one of the three form messages. */
  lemma RefusalIsAFormMessage(f: Form, reply: Reply)
    requires !Validate(f).Accepted?
    ensures ClickMessage(f, reply) in {MsgMissing, MsgNotNumeric, MsgNotPositive}
    ensures forall other: Reply :: ClickMessage(f, other) == ClickMessage(f, reply)
  {
  }

  /** The trading window: only the result view is modelled. */
  class TradingApp {
    var resultView: seq<string>

    constructor ()
      ensures resultView == []
    {
      resultView := [];
    }

    /**
     * `on_order_click`: sends the order only for an accepted form, and adds exactly one line
     * to the result view.
     */
    method OnOrderClick(f: Form, reply: Reply) returns (sent: Option<OrderRequest>)
      modifies this
      ensures sent.Some? <==> Validate(f).Accepted?
      ensures sent.Some? ==> sent.value == Request(f, Validate(f).qty, Validate(f).price)
      ensures resultView == old(resultView) + [ClickMessage(f, reply)]
    {
      var cano := Strip(f.cano);
      var acntPrdtCd := Strip(f.acntPrdtCd);
      var pdno := Strip(f.pdno);
      var qtyText := Strip(f.qty);
      var priceText := Strip(f.price);
      if !(cano != [] && acntPrdtCd != [] && pdno != [] && qtyText != [] && priceText != []) {
        resultView := resultView + [MsgMissing];
        return None;
      }
      var intQty := ParseInt(qtyText);
      if intQty.None? {
        resultView := resultView + [MsgNotNumeric];
        return None;
      }
      var intPrice := ParseInt(priceText);
      if intPrice.None? {
        resultView := resultView + [MsgNotNumeric];
        return None;
      }
      if intQty.value <= 0 || intPrice.value <= 0 {
        resultView := resultView + [MsgNotPositive];
        return None;
      }
      var order := OrderRequest(f.envDv, f.ordDv, cano, acntPrdtCd, pdno, f.ordDvsn,
        IntToString(intQty.value), IntToString(intPrice.value), "KRX");
      sent := Some(order);
      match reply
      case Rows(text) =>
        resultView := resultView + [text];
      case NoRows =>
        resultView := resultView + [MsgNoReply];
      case Raised(message) =>
        resultView := resultView + [ErrorPrefix + message];
    }
  }
}
