/**
 * The `MathRenderer` component: its `height` state and `onMessage` handler,
 * what it renders for a given content string, and what the page inside the
 * web view shows once its script has read the content back and formatted it.
 */
module MathRenderer {
  import opened Wrappers
  import HtmlEscape
  import Markup

  /** Height before any size message arrives, in the bounded mode. */
  const DefaultHeight: real := 150.0
  /** Reports at or below this are ignored. */
  const NoiseFloor: real := 10.0
  /** Added to every accepted report. */
  const Padding: real := 30.0

  /**
   * What the component renders for non-empty content: the outer view's `flex`
   * and `height` style, whether the web view scrolls, and the value placed in
   * the page's hidden textarea.
   */
  datatype Panel = Panel(flex: int, height: Option<real>, scrollEnabled: bool, textareaValue: string)

  /** The start value of the `height` state. */
  function InitialHeight(fullHeight: bool): (h: Option<real>)
    ensures h.None? <==> fullHeight
    ensures h.Some? ==> h.value == DefaultHeight
  {
    if fullHeight then None else Some(DefaultHeight)
  }

  /**
   * A size message is applied: not in full-height mode, and the payload parsed
   * to a number (`None` stands for NaN) above the noise floor.
   */
  predicate Accepted(fullHeight: bool, payload: Option<real>) {
    !fullHeight && payload.Some? && payload.value > NoiseFloor
  }

  /** The `height` state after one message. */
  function NextHeight(fullHeight: bool, height: Option<real>, payload: Option<real>): Option<real> {
    if fullHeight then height
    else match payload
      case None => height
      case Some(h) => if h > NoiseFloor then Some(h + Padding) else height
  }

  /** The `height` state after a sequence of messages, delivered in order. */
  function HeightAfter(fullHeight: bool, height: Option<real>, payloads: seq<Option<real>>): Option<real>
    decreases |payloads|
  {
    if payloads == [] then height
    else HeightAfter(fullHeight, NextHeight(fullHeight, height, payloads[0]), payloads[1..])
  }

  /** The last accepted report of a sequence, if any: an independent, right-to-left definition. */
  function LastAccepted(fullHeight: bool, payloads: seq<Option<real>>): (r: Option<real>)
    ensures r.Some? ==> r.value > NoiseFloor && !fullHeight
  {
    if payloads == [] then None
    else if Accepted(fullHeight, payloads[|payloads| - 1]) then payloads[|payloads| - 1]
    else LastAccepted(fullHeight, payloads[..|payloads| - 1])
  }

  /** The states the `height` field can be in. */
  predicate HeightInvariant(fullHeight: bool, height: Option<real>) {
    if fullHeight then height.None?
    else height.Some? && (height.value == DefaultHeight || height.value > NoiseFloor + Padding)
  }

  /** An accepted message sets the height to its value plus padding; a rejected one changes nothing. */
  lemma NextHeightCases(fullHeight: bool, height: Option<real>, payload: Option<real>)
    ensures Accepted(fullHeight, payload) ==> NextHeight(fullHeight, height, payload) == Some(payload.value + Padding)
    ensures !Accepted(fullHeight, payload) ==> NextHeight(fullHeight, height, payload) == height
  {
  }

  /** An accepted report replaces the height; earlier values do not accumulate. */
  lemma NextHeightForgetsPast(fullHeight: bool, h1: Option<real>, h2: Option<real>, payload: Option<real>)
    requires Accepted(fullHeight, payload)
    ensures NextHeight(fullHeight, h1, payload) == NextHeight(fullHeight, h2, payload)
    ensures NextHeight(fullHeight, h1, payload).value > NoiseFloor + Padding
  {
  }

  /** The start value satisfies the invariant and every message preserves it. */
  lemma HeightInvariantHolds(fullHeight: bool, height: Option<real>, payload: Option<real>)
    ensures HeightInvariant(fullHeight, InitialHeight(fullHeight))
    ensures HeightInvariant(fullHeight, height) ==> HeightInvariant(fullHeight, NextHeight(fullHeight, height, payload))
  {
  }

  lemma LastAcceptedPrepend(fullHeight: bool, p: Option<real>, rest: seq<Option<real>>)
    ensures LastAccepted(fullHeight, [p] + rest) ==
      if LastAccepted(fullHeight, rest).Some? then LastAccepted(fullHeight, rest)
      else if Accepted(fullHeight, p) then p else None
    decreases |rest|
  {
    var s := [p] + rest;
    if rest == [] {
      assert s[..|s| - 1] == [];
    } else {
      assert s[|s| - 1] == rest[|rest| - 1];
      assert s[..|s| - 1] == [p] + rest[..|rest| - 1];
      LastAcceptedPrepend(fullHeight, p, rest[..|rest| - 1]);
    }
  }

  /**
   * After any sequence of messages, the height is the last accepted report plus
   * padding, or the height it had before when no report was accepted.
   */
  lemma {:induction false} HeightAfterIsLastAccepted(fullHeight: bool, height: Option<real>, payloads: seq<Option<real>>)
    ensures HeightAfter(fullHeight, height, payloads) ==
      match LastAccepted(fullHeight, payloads)
      case Some(h) => Some(h + Padding)
      case None => height
    decreases |payloads|
  {
    if payloads != [] {
      var p, rest := payloads[0], payloads[1..];
      assert payloads == [p] + rest;
      HeightAfterIsLastAccepted(fullHeight, NextHeight(fullHeight, height, p), rest);
      LastAcceptedPrepend(fullHeight, p, rest);
    }
  }

  /** In full-height mode every message is ignored and the height stays undefined. */
  lemma {:induction false} FullHeightIgnoresMessages(payloads: seq<Option<real>>)
    ensures HeightAfter(true, InitialHeight(true), payloads) == None
    decreases |payloads|
  {
    if payloads != [] {
      FullHeightIgnoresMessages(payloads[1..]);
    }
  }

  /**
   * Reports of 0, 240 and 238 in that order: the zero is noise, and the last
   * report wins, plus padding.
   */
  lemma ThreeReports()
    ensures HeightAfter(false, InitialHeight(false), [Some(0.0), Some(240.0), Some(238.0)]) == Some(268.0)
  {
    HeightAfterIsLastAccepted(false, InitialHeight(false), [Some(0.0), Some(240.0), Some(238.0)]);
  }

  /** The page's visible markup: the script reads the textarea value, then formats it. */
  function PageMarkup(textareaValue: string): string {
    Markup.Format(HtmlEscape.Unescape(textareaValue))
  }

  /**
   * One mounted `MathRenderer`: its `fullHeight` prop and its `height` state.
   * The state is kept between renders, whatever content is passed to them.
   */
  class HeightState {
    const fullHeight: bool
    var height: Option<real>

    ghost predicate Valid()
      reads this
    {
      HeightInvariant(fullHeight, height)
    }

    constructor (fullHeight: bool)
      ensures this.fullHeight == fullHeight
      ensures height == InitialHeight(fullHeight)
      ensures Valid()
    {
      this.fullHeight := fullHeight;
      height := if fullHeight then None else Some(DefaultHeight);
    }

    /** The web view's `onMessage` handler; `payload` is `Number(data)`, with `None` for NaN. */
    method OnMessage(payload: Option<real>)
      requires Valid()
      modifies this`height
      ensures Valid()
      ensures height == NextHeight(fullHeight, old(height), payload)
      ensures Accepted(fullHeight, payload) ==> height == Some(payload.value + Padding)
      ensures !Accepted(fullHeight, payload) ==> height == old(height)
    {
      if fullHeight {
        return;
      }
      if payload.Some? && payload.value > NoiseFloor {
        height := Some(payload.value + Padding);
      }
    }

    /**
     * The render: nothing for empty content; otherwise the sized panel whose
     * textarea reads back as exactly the content.
     */
    function Render(content: string): (r: Option<Panel>)
      reads this
      ensures r.None? <==> content == ""
      ensures r.Some? ==> r.value.textareaValue == HtmlEscape.Escape(content)
      ensures r.Some? ==> '<' !in r.value.textareaValue && '>' !in r.value.textareaValue
      ensures r.Some? ==> HtmlEscape.Unescape(r.value.textareaValue) == content
      ensures r.Some? ==> r.value.flex == (if fullHeight then 1 else 0)
      ensures r.Some? ==> r.value.scrollEnabled == fullHeight
      ensures r.Some? ==> r.value.height == (if fullHeight then None else height)
    {
      if content == "" then None
      else
        HtmlEscape.UnescapeEscape(content);
        Some(Panel(if fullHeight then 1 else 0, if fullHeight then None else height, fullHeight, HtmlEscape.Escape(content)))
    }

    /** Escaping is transparent: the page formats exactly the content it was given. */
    lemma RenderedPage(content: string)
      requires content != ""
      ensures Render(content).Some?
      ensures PageMarkup(Render(content).value.textareaValue) == Markup.Format(content)
    {
    }
  }
}
