/**
 * Whether a stock change concerns the web store at all. A stock record is on
 * the web store when its `custom1` field reads "yes" (in any letter case, with
 * surrounding white space); `evaluate_stock_action_with_webstore` turns the raw
 * change found by the diff into the action the store needs, or into nothing.
 */
module Webstore {
  import opened Wrappers
  import opened RubyText
  import opened Diff

  /** The normalised `custom1` flag: `custom1.downcase.strip`. */
  function Flag(custom1: string): string
  {
    Strip(Downcase(custom1))
  }

  /**
   * `evaluate_stock_action_with_webstore(action, web_store_old, web_store_current)`,
   * with the tests in the order the code makes them.
   */
  function EvaluateStockAction(action: Action, webOld: string, webCur: string): (r: Option<Action>)
    ensures r == Transition(action, webOld == "yes", webCur == "yes")
  {
    match action
    case Update =>
      if webOld == "yes" && webCur != "yes" then Some(Delete)
      else if webOld != "yes" && webCur == "yes" then Some(New)
      else if webOld != "yes" && webCur != "yes" then None
      else Some(Update)
    case Delete =>
      if webOld != "yes" then None else Some(Delete)
    case New =>
      if webCur != "yes" then None else Some(New)
  }

  /**
   * The intended transition table: a product is on the store before the change
   * when `wasOn`, and should be after it when `isOn`. The store acts only where
   * its contents must change, or where a product it holds was updated.
   */
  function Transition(action: Action, wasOn: bool, isOn: bool): Option<Action>
  {
    match action
    case Update =>
      if wasOn && isOn then Some(Update)
      else if wasOn then Some(Delete)
      else if isOn then Some(New)
      else None
    case Delete => if wasOn then Some(Delete) else None
    case New => if isOn then Some(New) else None
  }

  /** The store only removes what it held, only adds what should be on it, and
      only updates what it holds and keeps. */
  lemma TransitionIsSafe(action: Action, webOld: string, webCur: string)
    ensures EvaluateStockAction(action, webOld, webCur) == Some(Delete) ==> webOld == "yes"
    ensures EvaluateStockAction(action, webOld, webCur) == Some(New) ==> webCur == "yes"
    ensures EvaluateStockAction(action, webOld, webCur) == Some(Update)
        <==> action == Update && webOld == "yes" && webCur == "yes"
    ensures EvaluateStockAction(action, webOld, webCur) == None <==>
      || (action == Update && webOld != "yes" && webCur != "yes")
      || (action == Delete && webOld != "yes")
      || (action == New && webCur != "yes")
  {
  }

  /** A deleted record is never added and a new record is never deleted. */
  lemma NoReversal(webOld: string, webCur: string)
    ensures EvaluateStockAction(Delete, webOld, webCur) != Some(New)
    ensures EvaluateStockAction(New, webOld, webCur) != Some(Delete)
  {
  }
}
