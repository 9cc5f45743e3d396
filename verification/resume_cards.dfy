/** The résumé the component receives, the defaults it fills in on arrival,
    and the five title/content cards it builds from it, each showing at most
    four wrapped lines. */
module ResumeCards {
  import opened Options
  import opened Text
  import opened WordWrap

  datatype Experience = Experience(role: Option<string>, company: Option<string>)
  datatype Education = Education(degree: Option<string>, year: Option<string>)
  datatype Contact = Contact(email: Option<string>, phone: Option<string>)

  /** The résumé object; every property may be missing. */
  datatype Resume = Resume(
    name: Option<string>,
    title: Option<string>,
    summary: Option<string>,
    skills: Option<seq<string>>,
    experience: Option<seq<Experience>>,
    education: Option<seq<Education>>,
    contact: Option<Contact>)

  datatype Card = Card(title: string, content: string)

  /** A card as drawn: its title and the wrapped lines of its content that
      fit on the face. */
  datatype CardFace = CardFace(title: string, lines: seq<string>)

  const DefaultName: string := "Ananya Bara"
  const DefaultTitle: string := ".NET Full Stack Developer"
  const CardTitles: seq<string> := ["SUMMARY", "SKILLS", "EXPERIENCE", "EDUCATION", "CONTACT"]
  const CardCount: nat := 5
  /** Width of a card's canvas, and the margin kept free of text. */
  const CardCanvasWidth: int := 1024
  const CardTextMargin: int := 80
  const MaxCardLines: nat := 4
  const Bullet: string := " \U{2022} "

  /** JavaScript truthiness of a possibly missing string: present and not
      empty. */
  predicate Truthy(o: Option<string>) {
    o.Some? && o.value != ""
  }

  /** `o || fallback` on a possibly missing string. */
  function OrElse(o: Option<string>, fallback: string): string {
    if Truthy(o) then o.value else fallback
  }

  /** A possibly missing property used in string concatenation: a missing one
      reads as "undefined". */
  function AsText(o: Option<string>): string {
    match o
    case Some(v) => v
    case None => "undefined"
  }

  // ---------------------------------------------------------------------
  // Defaults on arrival
  // ---------------------------------------------------------------------

  /** The name and title defaults applied when the résumé arrives: a missing
      or empty name or title is replaced, a present one is kept, and nothing
      else changes. */
  function ApplyDefaults(r: Resume): (d: Resume)
    ensures Truthy(d.name) && Truthy(d.title)
    ensures Truthy(r.name) ==> d.name == r.name
    ensures !Truthy(r.name) ==> d.name == Some(DefaultName)
    ensures Truthy(r.title) ==> d.title == r.title
    ensures !Truthy(r.title) ==> d.title == Some(DefaultTitle)
    ensures d.(name := r.name, title := r.title) == r
  {
    var r1 := if Truthy(r.name) then r else r.(name := Some(DefaultName));
    if Truthy(r1.title) then r1 else r1.(title := Some(DefaultTitle))
  }

  /** Applying the defaults a second time changes nothing. */
  lemma ApplyDefaultsIdempotent(r: Resume)
    ensures ApplyDefaults(ApplyDefaults(r)) == ApplyDefaults(r)
  {
  }

  // ---------------------------------------------------------------------
  // Card contents
  // ---------------------------------------------------------------------

  /** `role @ company`: the role first, then ` @ `, then the company, a
      missing one of them reading as `undefined`. */
  function ExperienceText(e: Experience): (t: string)
    ensures |t| == |AsText(e.role)| + 3 + |AsText(e.company)|
    ensures AsText(e.role) <= t
    ensures t[|AsText(e.role)|..|AsText(e.role)| + 3] == " @ "
    ensures t[|AsText(e.role)| + 3..] == AsText(e.company)
    ensures e.role == None ==> "undefined" <= t
  {
    AsText(e.role) + " @ " + AsText(e.company)
  }

  /** `degree (year)`: the degree first, then the year in parentheses, a
      missing one of them reading as `undefined`. */
  function EducationText(e: Education): (t: string)
    ensures |t| == |AsText(e.degree)| + 3 + |AsText(e.year)|
    ensures AsText(e.degree) <= t
    ensures t[|AsText(e.degree)|..|AsText(e.degree)| + 2] == " ("
    ensures t[|AsText(e.degree)| + 2..|t| - 1] == AsText(e.year)
    ensures t[|t| - 1] == ')'
    ensures e.degree == None ==> "undefined" <= t
  {
    AsText(e.degree) + " (" + AsText(e.year) + ")"
  }

  function ExperienceTexts(es: seq<Experience>): (r: seq<string>)
    ensures |r| == |es|
    ensures forall i :: 0 <= i < |es| ==> r[i] == ExperienceText(es[i])
  {
    seq(|es|, i requires 0 <= i < |es| => ExperienceText(es[i]))
  }

  function EducationTexts(es: seq<Education>): (r: seq<string>)
    ensures |r| == |es|
    ensures forall i :: 0 <= i < |es| ==> r[i] == EducationText(es[i])
  {
    seq(|es|, i requires 0 <= i < |es| => EducationText(es[i]))
  }

  function SummaryContent(r: Resume): string {
    OrElse(r.summary, "N/A")
  }

  function SkillsContent(r: Resume): string {
    Join(r.skills.GetOr([]), ", ")
  }

  function ExperienceContent(r: Resume): string {
    Join(ExperienceTexts(r.experience.GetOr([])), " | ")
  }

  function EducationContent(r: Resume): string {
    Join(EducationTexts(r.education.GetOr([])), " | ")
  }

  /** `contact?.email`: missing when the contact record is. */
  function ContactEmail(r: Resume): Option<string> {
    if r.contact.Some? then r.contact.value.email else None
  }

  /** `contact?.phone`: missing when the contact record is. */
  function ContactPhone(r: Resume): Option<string> {
    if r.contact.Some? then r.contact.value.phone else None
  }

  /** `email • phone`, each part empty when missing. */
  function ContactContent(r: Resume): string {
    OrElse(ContactEmail(r), "") + Bullet + OrElse(ContactPhone(r), "")
  }

  /** The five cards, in carousel order. */
  function Cards(r: Resume): (cards: seq<Card>)
    ensures |cards| == CardCount
    ensures forall i :: 0 <= i < CardCount ==> cards[i].title == CardTitles[i]
    ensures cards[0].content == if Truthy(r.summary) then r.summary.value else "N/A"
    ensures r.skills == None ==> cards[1].content == ""
    ensures r.skills.Some? ==> cards[1].content == Join(r.skills.value, ", ")
    ensures r.experience == None ==> cards[2].content == ""
    ensures r.experience.Some? ==> cards[2].content == Join(ExperienceTexts(r.experience.value), " | ")
    ensures r.education == None ==> cards[3].content == ""
    ensures r.education.Some? ==> cards[3].content == Join(EducationTexts(r.education.value), " | ")
    ensures cards[4].content
         == (if Truthy(ContactEmail(r)) then ContactEmail(r).value else "") + Bullet
          + (if Truthy(ContactPhone(r)) then ContactPhone(r).value else "")
    ensures r.contact == None ==> cards[4].content == Bullet
  {
    [ Card("SUMMARY", SummaryContent(r)),
      Card("SKILLS", SkillsContent(r)),
      Card("EXPERIENCE", ExperienceContent(r)),
      Card("EDUCATION", EducationContent(r)),
      Card("CONTACT", ContactContent(r)) ]
  }

  /** The experience card lists the entries in input order: one more entry
      at the end adds ` | role @ company` at the end of the card. */
  lemma ExperienceInOrder(r: Resume, es: seq<Experience>, e: Experience)
    requires |es| >= 1
    ensures Cards(r.(experience := Some(es + [e])))[2].content
         == Cards(r.(experience := Some(es)))[2].content + " | " + ExperienceText(e)
  {
    assert ExperienceTexts(es + [e]) == ExperienceTexts(es) + [ExperienceText(e)];
    JoinSnoc(ExperienceTexts(es), ExperienceText(e), " | ");
  }

  /** The education card lists the entries in input order: one more entry at
      the end adds ` | degree (year)` at the end of the card. */
  lemma EducationInOrder(r: Resume, es: seq<Education>, e: Education)
    requires |es| >= 1
    ensures Cards(r.(education := Some(es + [e])))[3].content
         == Cards(r.(education := Some(es)))[3].content + " | " + EducationText(e)
  {
    assert EducationTexts(es + [e]) == EducationTexts(es) + [EducationText(e)];
    JoinSnoc(EducationTexts(es), EducationText(e), " | ");
  }

  /** The skills card lists the skills in input order, separated by `, `. */
  lemma SkillsInOrder(r: Resume, skills: seq<string>, s: string)
    requires |skills| >= 1
    ensures Cards(r.(skills := Some(skills + [s])))[1].content
         == Cards(r.(skills := Some(skills)))[1].content + ", " + s
  {
    JoinSnoc(skills, s, ", ");
  }

  /** A résumé with nothing in it still yields five cards: `N/A` for the
      summary, empty lists, and a contact card holding only the bullet. */
  lemma EmptyResumeCards()
    ensures var cards := Cards(Resume(None, None, None, None, None, None, None));
      && cards[0].content == "N/A"
      && cards[1].content == "" && cards[2].content == "" && cards[3].content == ""
      && cards[4].content == Bullet
  {
  }

  // ---------------------------------------------------------------------
  // What a card shows
  // ---------------------------------------------------------------------

  /** The lines drawn on a card: the content wrapped to the canvas width
      less the margin, cut after four lines. */
  function CardLines(measure: Measure, card: Card): (lines: seq<string>)
    ensures 1 <= |lines| <= MaxCardLines
    ensures lines <= WrapText(measure, card.content, (CardCanvasWidth - CardTextMargin) as real)
    ensures |lines| < MaxCardLines ==>
      lines == WrapText(measure, card.content, (CardCanvasWidth - CardTextMargin) as real)
  {
    var wrapped := WrapText(measure, card.content, (CardCanvasWidth - CardTextMargin) as real);
    if |wrapped| < MaxCardLines then wrapped else wrapped[..MaxCardLines]
  }

  /** A card whose clean content wraps to at most four lines shows all of it:
      its drawn lines joined with spaces are the content. */
  lemma ShortCardShowsEverything(measure: Measure, card: Card)
    requires card.content == "" || AllClean(Split(card.content))
    requires |WrapText(measure, card.content, (CardCanvasWidth - CardTextMargin) as real)| <= MaxCardLines
    ensures Join(CardLines(measure, card), " ") == card.content
  {
    var wrapped := WrapText(measure, card.content, (CardCanvasWidth - CardTextMargin) as real);
    WrapTextRoundTrip(measure, card.content, (CardCanvasWidth - CardTextMargin) as real);
    assert CardLines(measure, card) == wrapped;
  }

  /** The name and title the defaults fill in appear on no card: the cards
      of a résumé are the same with or without its defaults. */
  lemma CardsIgnoreDefaults(r: Resume)
    ensures Cards(ApplyDefaults(r)) == Cards(r)
  {
    var d := ApplyDefaults(r);
    assert d.summary == r.summary && d.skills == r.skills && d.experience == r.experience;
    assert d.education == r.education && d.contact == r.contact;
  }

  /** The faces of the five cards built from the résumé as it arrived: the
      defaults are applied first, and each card shows its title and the first
      lines (at most four) of its content, which the defaults do not
      affect. */
  function CardFaces(measure: Measure, received: Resume): (faces: seq<CardFace>)
    ensures |faces| == CardCount
    ensures forall i :: 0 <= i < CardCount ==> faces[i].title == CardTitles[i]
    ensures forall i :: 0 <= i < CardCount ==> 1 <= |faces[i].lines| <= MaxCardLines
    ensures forall i :: 0 <= i < CardCount ==> faces[i].lines == CardLines(measure, Cards(received)[i])
  {
    var cards := Cards(ApplyDefaults(received));
    CardsIgnoreDefaults(received);
    seq(CardCount, i requires 0 <= i < CardCount => CardFace(cards[i].title, CardLines(measure, cards[i])))
  }
}
