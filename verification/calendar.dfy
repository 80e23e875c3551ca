/**
  The editorial calendar at the top of `main`: from the weekday (Monday is 0)
  and the day of the month it picks what to post, the font, the instruction for
  the language model, the link and the source text. A weekday rule runs first
  and a monthly rule overwrites it. Fetching a page and extracting the text of
  a CSS selector is an abstract `page` function.
 */
module Calendar {
  import opened Wrappers

  /** `FONTS`: font key to font file URL. */
  const Fonts: map<string, string> := map[
    "cinema" := "https://github.com/google/fonts/raw/main/apache/roboto/Roboto-Bold.ttf",
    "intelligence" := "https://github.com/google/fonts/raw/main/ofl/playfairdisplay/PlayfairDisplay-Bold.ttf",
    "music" := "https://github.com/google/fonts/raw/main/ofl/bebasneue/BebasNeue-Regular.ttf",
    "agency" := "https://github.com/google/fonts/raw/main/apache/robotoslab/RobotoSlab-Bold.ttf"
  ]

  const CinemaUrl := "https://velvet.martestudios.com/cinema.html"
  const MshUrl := "https://msh.martestudios.com"
  const MusicUrl := "https://velvet.martestudios.com/musica.html"
  const AgencyUrl := "https://agency.martestudios.com"

  /** The number of characters `scrape_section` keeps. */
  const ScrapeLimit := 2000

  /** Below this many characters the Wednesday `article` text is replaced by the whole `body`. */
  const ShortArticle := 20

  /** The kinds of post, weekly and monthly. */
  datatype Topic = CinemaCult | Intelligence | MusicVibe | PromoAgency | CallForMovies | PromoMsh

  /** `post_type` for the topic. */
  function Title(t: Topic): string
  {
    match t
    case CinemaCult => "Cinema Cult"
    case Intelligence => "Intelligence"
    case MusicVibe => "Music Vibe"
    case PromoAgency => "Promo Agency"
    case CallForMovies => "Call for Movies"
    case PromoMsh => "Promo MSH"
  }

  /** `font_key` for the topic. */
  function FontKey(t: Topic): string
  {
    match t
    case CinemaCult => "cinema"
    case Intelligence => "intelligence"
    case MusicVibe => "music"
    case PromoAgency => "agency"
    case CallForMovies => "cinema"
    case PromoMsh => "intelligence"
  }

  /** The instruction passed to the language model. */
  function Instruction(t: Topic): string
  {
    match t
    case CinemaCult => "Slide educative sul film. Focus registico."
    case Intelligence => "Slide analitiche. Punti geopolitici chiave."
    case MusicVibe => "Slide sul sound e l'album. Stile groovy."
    case PromoAgency => "Slide corporate sui servizi."
    case CallForMovies => "Slide per attrarre registi."
    case PromoMsh => "Slide sull'importanza dell'info."
  }

  /** The fixed context text of a monthly post. */
  function MonthlyContext(t: Topic): string
  {
    match t
    case PromoAgency => "Sviluppo Web, App, Marketing."
    case CallForMovies => "Call per registi."
    case PromoMsh => "MSH News."
    case _ => ""
  }

  /** What the calendar decided: `post_type` (None when nothing is posted), `prompt`, `font_key`, `link_url`, `scraped_text`. */
  datatype Plan = Plan(postType: Option<string>, prompt: string, fontKey: string, linkUrl: string, scrapedText: string)

  /**
    `scrape_section(url, selector)`: the text of the first element matching
    `selector`, cut to its first 2000 characters; `""` when the page or the
    element is missing (`page` gives `None`).
   */
  function ScrapeSection(page: (string, string) -> Option<string>, url: string, selector: string): (r: string)
    ensures |r| <= ScrapeLimit
    ensures page(url, selector).None? ==> r == ""
    ensures page(url, selector).Some? ==>
              r <= page(url, selector).value &&
              |r| == if |page(url, selector).value| < ScrapeLimit then |page(url, selector).value| else ScrapeLimit
  {
    match page(url, selector)
    case None => ""
    case Some(t) => if |t| <= ScrapeLimit then t else t[..ScrapeLimit]
  }

  /** `day_num` is one of the monthly dates. */
  predicate Monthly(day: int)
  {
    day == 1 || day == 10 || day == 20
  }

  /** `weekday` has a weekly post: Monday, Wednesday or Friday. */
  predicate Weekly(weekday: int)
  {
    weekday == 0 || weekday == 2 || weekday == 4
  }

  /** The link a weekly post points at; `""` on the other weekdays. */
  function WeeklyLink(weekday: int): string
  {
    if weekday == 0 then CinemaUrl
    else if weekday == 2 then MshUrl
    else if weekday == 4 then MusicUrl
    else ""
  }

  /** The fields of the plan a topic fixes. */
  predicate Fixes(plan: Plan, t: Topic)
  {
    plan.postType == Some(Title(t)) && plan.fontKey == FontKey(t) && plan.prompt == Instruction(t)
  }

  /**
    What the calendar block of `main` chooses for a weekday and a day of the
    month: the plan and the `(url, selector)` pairs scraped, in order.
   */
  ghost predicate Chosen(weekday: int, day: int, page: (string, string) -> Option<string>,
                         plan: Plan, fetches: seq<(string, string)>)
  {
    // a plan is made exactly on a monthly date or a weekly weekday
    (plan.postType.Some? <==> Monthly(day) || Weekly(weekday)) &&
    // the monthly rule wins whatever the weekday
    (day == 1 ==> plan == Plan(Some(Title(PromoAgency)), Instruction(PromoAgency), FontKey(PromoAgency),
                               AgencyUrl, MonthlyContext(PromoAgency))) &&
    (day == 10 ==> Fixes(plan, CallForMovies) && plan.scrapedText == MonthlyContext(CallForMovies)) &&
    (day == 20 ==> Fixes(plan, PromoMsh) && plan.scrapedText == MonthlyContext(PromoMsh)) &&
    // on days 10 and 20 the link is the one the weekday rule left
    (day == 10 || day == 20 ==> plan.linkUrl == WeeklyLink(weekday)) &&
    // otherwise the weekday decides
    (!Monthly(day) && weekday == 0 ==>
       Fixes(plan, CinemaCult) && plan.linkUrl == CinemaUrl &&
       plan.scrapedText == ScrapeSection(page, CinemaUrl, "#vintage-feed")) &&
    (!Monthly(day) && weekday == 2 ==> Fixes(plan, Intelligence) && plan.linkUrl == MshUrl) &&
    (!Monthly(day) && weekday == 2 && |ScrapeSection(page, MshUrl, "article")| >= ShortArticle ==>
       plan.scrapedText == ScrapeSection(page, MshUrl, "article")) &&
    (!Monthly(day) && weekday == 2 && |ScrapeSection(page, MshUrl, "article")| < ShortArticle ==>
       plan.scrapedText == ScrapeSection(page, MshUrl, "body")) &&
    (!Monthly(day) && weekday == 4 ==>
       Fixes(plan, MusicVibe) && plan.linkUrl == MusicUrl &&
       plan.scrapedText == ScrapeSection(page, MusicUrl, "#vintage-feed")) &&
    // no rule: the initial values
    (!Monthly(day) && !Weekly(weekday) ==> plan == Initial) &&
    // pages are fetched by the weekday rule only, even when a monthly rule then overrides it
    (weekday == 0 ==> fetches == [(CinemaUrl, "#vintage-feed")]) &&
    (weekday == 2 && |ScrapeSection(page, MshUrl, "article")| >= ShortArticle ==>
       fetches == [(MshUrl, "article")]) &&
    (weekday == 2 && |ScrapeSection(page, MshUrl, "article")| < ShortArticle ==>
       fetches == [(MshUrl, "article"), (MshUrl, "body")]) &&
    (weekday == 4 ==> fetches == [(MusicUrl, "#vintage-feed")]) &&
    (!Weekly(weekday) ==> fetches == [])
  }

  /** `Chosen` leaves nothing open: for each weekday, day and page there is one plan and one list of fetches. */
  lemma ChosenUnique(weekday: int, day: int, page: (string, string) -> Option<string>,
                     plan1: Plan, fetches1: seq<(string, string)>, plan2: Plan, fetches2: seq<(string, string)>)
    requires Chosen(weekday, day, page, plan1, fetches1) && Chosen(weekday, day, page, plan2, fetches2)
    ensures plan1 == plan2 && fetches1 == fetches2
  {
  }

  /**
    The calendar block of `main`, as the sequence of reassignments the source
    performs: the weekday rule, then the monthly rule over it.
   */
  method SelectPlan(weekday: int, day: int, page: (string, string) -> Option<string>)
    returns (plan: Plan, fetches: seq<(string, string)>)
    ensures Chosen(weekday, day, page, plan, fetches)
    // `FONTS[font_key]` is always defined
    ensures plan.fontKey in Fonts
  {
    plan, fetches := WeekdayRule(weekday, page);
    plan := MonthlyRule(day, plan);
  }

  /** The values before any rule: no post, font `'agency'`, everything else empty. */
  const Initial := Plan(None, "", "agency", "", "")

  /** The `--- CALENDARIO ---` block: Monday, Wednesday and Friday posts. */
  method WeekdayRule(weekday: int, page: (string, string) -> Option<string>)
    returns (plan: Plan, fetches: seq<(string, string)>)
    ensures weekday == 0 ==>
              plan == Plan(Some(Title(CinemaCult)), Instruction(CinemaCult), FontKey(CinemaCult), CinemaUrl,
                           ScrapeSection(page, CinemaUrl, "#vintage-feed")) &&
              fetches == [(CinemaUrl, "#vintage-feed")]
    ensures weekday == 2 ==>
              Fixes(plan, Intelligence) && plan.linkUrl == MshUrl &&
              (|ScrapeSection(page, MshUrl, "article")| >= ShortArticle ==>
                 plan.scrapedText == ScrapeSection(page, MshUrl, "article") && fetches == [(MshUrl, "article")]) &&
              (|ScrapeSection(page, MshUrl, "article")| < ShortArticle ==>
                 plan.scrapedText == ScrapeSection(page, MshUrl, "body") &&
                 fetches == [(MshUrl, "article"), (MshUrl, "body")])
    ensures weekday == 4 ==>
              plan == Plan(Some(Title(MusicVibe)), Instruction(MusicVibe), FontKey(MusicVibe), MusicUrl,
                           ScrapeSection(page, MusicUrl, "#vintage-feed")) &&
              fetches == [(MusicUrl, "#vintage-feed")]
    ensures !Weekly(weekday) ==> plan == Initial && fetches == []
  {
    var postType: Option<string> := None;
    var prompt := "";
    var fontKey := "agency";
    var linkUrl := "";
    var scrapedText := "";
    fetches := [];

    if weekday == 0 {
      postType := Some(Title(CinemaCult));
      fontKey := FontKey(CinemaCult);
      linkUrl := CinemaUrl;
      scrapedText := ScrapeSection(page, linkUrl, "#vintage-feed");
      fetches := fetches + [(linkUrl, "#vintage-feed")];
      prompt := Instruction(CinemaCult);
    } else if weekday == 2 {
      postType := Some(Title(Intelligence));
      fontKey := FontKey(Intelligence);
      linkUrl := MshUrl;
      scrapedText := ScrapeSection(page, linkUrl, "article");
      fetches := fetches + [(linkUrl, "article")];
      if |scrapedText| < ShortArticle {
        scrapedText := ScrapeSection(page, linkUrl, "body");
        fetches := fetches + [(linkUrl, "body")];
      }
      prompt := Instruction(Intelligence);
    } else if weekday == 4 {
      postType := Some(Title(MusicVibe));
      fontKey := FontKey(MusicVibe);
      linkUrl := MusicUrl;
      scrapedText := ScrapeSection(page, linkUrl, "#vintage-feed");
      fetches := fetches + [(linkUrl, "#vintage-feed")];
      prompt := Instruction(MusicVibe);
    }
    plan := Plan(postType, prompt, fontKey, linkUrl, scrapedText);
  }

  /** The `--- MENSILE ---` block: on days 1, 10 and 20 it overwrites what the weekday rule set. */
  method MonthlyRule(day: int, weekly: Plan) returns (plan: Plan)
    ensures day == 1 ==> plan == Plan(Some(Title(PromoAgency)), Instruction(PromoAgency), FontKey(PromoAgency),
                                      AgencyUrl, MonthlyContext(PromoAgency))
    ensures day == 10 ==> plan == Plan(Some(Title(CallForMovies)), Instruction(CallForMovies),
                                       FontKey(CallForMovies), weekly.linkUrl, MonthlyContext(CallForMovies))
    ensures day == 20 ==> plan == Plan(Some(Title(PromoMsh)), Instruction(PromoMsh),
                                       FontKey(PromoMsh), weekly.linkUrl, MonthlyContext(PromoMsh))
    ensures !Monthly(day) ==> plan == weekly
  {
    var postType, prompt, fontKey, linkUrl, scrapedText :=
      weekly.postType, weekly.prompt, weekly.fontKey, weekly.linkUrl, weekly.scrapedText;
    if day == 1 {
      postType := Some(Title(PromoAgency));
      fontKey := FontKey(PromoAgency);
      linkUrl := AgencyUrl;
      scrapedText := MonthlyContext(PromoAgency);
      prompt := Instruction(PromoAgency);
    } else if day == 10 {
      postType := Some(Title(CallForMovies));
      fontKey := FontKey(CallForMovies);
      scrapedText := MonthlyContext(CallForMovies);
      prompt := Instruction(CallForMovies);
    } else if day == 20 {
      postType := Some(Title(PromoMsh));
      fontKey := FontKey(PromoMsh);
      scrapedText := MonthlyContext(PromoMsh);
      prompt := Instruction(PromoMsh);
    }
    plan := Plan(postType, prompt, fontKey, linkUrl, scrapedText);
  }
}
