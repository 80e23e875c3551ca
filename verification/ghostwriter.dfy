/**
  The start of the run in `main` once the calendar has decided: when there is
  a post to make, the language model is asked for the texts, its reply is
  parsed and the font of the post is looked up. The model call is an abstract
  `generate` function of the instruction and the context text.
 */
module Ghostwriter {
  import opened Wrappers
  import opened Reply
  import opened Calendar

  /** What a posting day produces before the slides are drawn. */
  datatype Kit = Kit(postType: string, texts: map<Field, string>, fontUrl: string)

  /**
    How the run ends: no post on this day, the model call raised (nothing in
    `main` catches it, so the run stops there), or the texts and font are ready.
   */
  datatype Outcome = NoPost | Aborted | Made(kit: Kit)

  /**
    `main` up to `font_url = FONTS[font_key]`: select the plan, and when it
    names a post, ask the model, parse its reply and pick the font. `generate`
    returns `None` where `get_gemini_content` would raise.
   */
  method RunDay(weekday: int, day: int, page: (string, string) -> Option<string>,
                generate: (string, string) -> Option<string>)
    returns (plan: Plan, fetches: seq<(string, string)>, outcome: Outcome)
    // the plan and the pages fetched are the calendar's choice
    ensures Chosen(weekday, day, page, plan, fetches)
    // the model is asked only on a day with a post
    ensures outcome.NoPost? <==> !(Monthly(day) || Weekly(weekday))
    // a failed model call ends the run without a kit
    ensures outcome.Aborted? <==> plan.postType.Some? && generate(plan.prompt, plan.scrapedText).None?
    ensures outcome.Made? ==> plan.postType == Some(outcome.kit.postType)
    // the texts are what the parser makes of the reply to this plan's instruction and context
    ensures outcome.Made? ==>
              (generate(plan.prompt, plan.scrapedText).Some? &&
               outcome.kit.texts == Parsed(generate(plan.prompt, plan.scrapedText).value))
    ensures outcome.Made? ==> outcome.kit.texts.Keys == AllFields
    // the font lookup cannot fail
    ensures outcome.Made? ==> plan.fontKey in Fonts && outcome.kit.fontUrl == Fonts[plan.fontKey]
    // the monthly rule decides the post on days 1, 10 and 20
    ensures day == 1 && outcome.Made? ==> outcome.kit.postType == Title(PromoAgency)
    ensures day == 10 && outcome.Made? ==> outcome.kit.postType == Title(CallForMovies)
    ensures day == 20 && outcome.Made? ==> outcome.kit.postType == Title(PromoMsh)
  {
    plan, fetches := SelectPlan(weekday, day, page);
    if plan.postType.Some? {
      var reply := generate(plan.prompt, plan.scrapedText);
      if reply.None? {
        outcome := Aborted;
      } else {
        var raw := reply.value;
        var data := ParseResponse(raw);
        var fontUrl := Fonts[plan.fontKey];
        outcome := Made(Kit(plan.postType.value, data, fontUrl));
      }
    } else {
      outcome := NoPost;
    }
  }
}
