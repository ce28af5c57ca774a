/**
 * The landing page's three pieces of behaviour: the labels of the section
 * links in the header, the width below which the page counts as mobile, and
 * the waitlist form with its name and e-mail fields, its pending submission
 * and its success panel.
 */
module Landing {
  import opened Text

  // ---------------------------------------------------------------------------
  // Header links
  // ---------------------------------------------------------------------------

  /** The section slugs the header links to, in the order they are shown. */
  const NavSections: seq<string> := ["features", "how-it-works", "app", "contact"]

  /** `word.charAt(0).toUpperCase() + word.slice(1)`; the empty word stays empty. */
  function Capitalize(w: string): (r: string)
    ensures |r| == |w|
  {
    if w == [] then [] else [UpperChar(w[0])] + w[1..]
  }

  function CapitalizeAll(words: seq<string>): (r: seq<string>)
    ensures |r| == |words|
  {
    seq(|words|, i requires 0 <= i < |words| => Capitalize(words[i]))
  }

  /** The text of the link to a section: split on '-', capitalise each word, join with ' '. */
  function NavLabel(slug: string): (r: string)
    ensures |r| == |slug|
  {
    JoinSplit(slug, '-');
    JoinCapitalized(Split(slug, '-'));
    Join(CapitalizeAll(Split(slug, '-')), ' ')
  }

  /**
   * The label character by character: a hyphen becomes a space, a character
   * at the start or right after a hyphen is upper-cased, any other is kept.
   */
  function TitleAt(s: string, i: nat): char
    requires i < |s|
  {
    if s[i] == '-' then ' '
    else if i == 0 || s[i - 1] == '-' then UpperChar(s[i])
    else s[i]
  }

  function TitleCase(s: string): (r: string)
    ensures |r| == |s|
  {
    seq(|s|, i requires 0 <= i < |s| => TitleAt(s, i))
  }

  /** On a word without hyphens, title-casing only capitalises the first character. */
  lemma TitleCaseOfWord(w: string)
    requires '-' !in w
    ensures TitleCase(w) == Capitalize(w)
  {
    if w != [] {
      forall i | 0 < i < |w|
        ensures TitleCase(w)[i] == w[i]
      {
        assert w[i] in w && w[i - 1] in w;
      }
    }
  }

  /** Title-casing around one hyphen: the hyphen becomes a space and both sides are title-cased on their own. */
  lemma TitleCaseAroundHyphen(p: string, t: string)
    ensures TitleCase(p + ['-'] + t) == TitleCase(p) + [' '] + TitleCase(t)
  {
    var s := p + ['-'] + t;
    var r := TitleCase(p) + [' '] + TitleCase(t);
    forall i | 0 <= i < |s|
      ensures TitleCase(s)[i] == r[i]
    {
      if i < |p| {
        assert s[i] == p[i];
        if 0 < i {
          assert s[i - 1] == p[i - 1];
        }
      } else if i > |p| {
        var j := i - |p| - 1;
        assert s[i] == t[j];
        if j > 0 {
          assert s[i - 1] == t[j - 1];
        }
      }
    }
  }

  /** Joining capitalised hyphen-free words with spaces title-cases their hyphen-joined form. */
  lemma {:induction false} JoinCapitalized(words: seq<string>)
    requires |words| >= 1
    requires forall k :: 0 <= k < |words| ==> '-' !in words[k]
    ensures Join(CapitalizeAll(words), ' ') == TitleCase(Join(words, '-'))
    decreases |words|
  {
    if |words| == 1 {
      TitleCaseOfWord(words[0]);
    } else {
      var caps := CapitalizeAll(words);
      JoinCapitalized(words[1..]);
      TitleCaseOfWord(words[0]);
      TitleCaseAroundHyphen(words[0], Join(words[1..], '-'));
      assert caps[1..] == CapitalizeAll(words[1..]);
    }
  }

  /** The link label is the slug title-cased character by character. */
  lemma NavLabelIsTitleCase(slug: string)
    ensures NavLabel(slug) == TitleCase(slug)
  {
    JoinSplit(slug, '-');
    JoinCapitalized(Split(slug, '-'));
  }

  /**
   * The shape of a link label: as long as its slug, no hyphen left, every
   * hyphen turned into a space, and every other character either kept or,
   * at the start of a word, upper-cased.
   */
  lemma NavLabelShape(slug: string)
    ensures |NavLabel(slug)| == |slug|
    ensures '-' !in NavLabel(slug)
    ensures forall i :: 0 <= i < |slug| && slug[i] == '-' ==> NavLabel(slug)[i] == ' '
    ensures forall i :: 0 < i < |slug| && slug[i] != '-' && slug[i - 1] != '-' ==> NavLabel(slug)[i] == slug[i]
    ensures forall i :: 0 <= i < |slug| && slug[i] != '-' && (i == 0 || slug[i - 1] == '-') ==>
              NavLabel(slug)[i] == UpperChar(slug[i])
  {
    NavLabelIsTitleCase(slug);
    var text := NavLabel(slug);
    forall c | c in text
      ensures c != '-'
    {
      var i :| 0 <= i < |text| && text[i] == c;
      assert text[i] == TitleAt(slug, i);
    }
  }

  /** Lower-casing a caption and turning its spaces back into hyphens recovers the slug. */
  function SlugOf(caption: string): (slug: string)
    ensures |slug| == |caption|
  {
    seq(|caption|, i requires 0 <= i < |caption| => if caption[i] == ' ' then '-' else LowerChar(caption[i]))
  }

  /** A slug without spaces or upper-case letters is recovered from its label. */
  lemma SlugOfNavLabel(slug: string)
    requires forall i :: 0 <= i < |slug| ==> slug[i] != ' ' && !IsUpper(slug[i])
    ensures SlugOf(NavLabel(slug)) == slug
  {
    NavLabelIsTitleCase(slug);
    forall i | 0 <= i < |slug|
      ensures SlugOf(TitleCase(slug))[i] == slug[i]
    {
      CaseRoundTrip(UpperChar(slug[i]));
    }
  }

  /** A slug with no hyphen is a single word, and its label is that word capitalised. */
  lemma WordLabel(w: string)
    requires '-' !in w
    ensures NavLabel(w) == Capitalize(w)
  {
    NavLabelIsTitleCase(w);
    TitleCaseOfWord(w);
  }

  /** "features" is a single word, and capitalising it gives "Features". */
  lemma FeaturesCapitalized()
    ensures '-' !in NavSections[0]
    ensures Capitalize(NavSections[0]) == "Features"
  {
  }

  /** The header link to "features" reads "Features". */
  lemma NavSectionLabel0()
    ensures NavLabel(NavSections[0]) == "Features"
  {
    FeaturesCapitalized();
    WordLabel(NavSections[0]);
  }

  /** "how-it-works" title-cases to "How It Works", word by word. */
  lemma HowItWorksTitleCase()
    ensures TitleCase(NavSections[1]) == "How It Works"
  {
    var slug := NavSections[1];
    assert slug == "how" + ['-'] + ("it" + ['-'] + "works");
    TitleCaseAroundHyphen("how", "it" + ['-'] + "works");
    TitleCaseAroundHyphen("it", "works");
    TitleCaseOfWord("how");
    TitleCaseOfWord("it");
    TitleCaseOfWord("works");
  }

  /** The header link to "how-it-works" reads "How It Works". */
  lemma NavSectionLabel1()
    ensures NavLabel(NavSections[1]) == "How It Works"
  {
    NavLabelIsTitleCase(NavSections[1]);
    HowItWorksTitleCase();
  }

  /** "app" is a single word, and capitalising it gives "App". */
  lemma AppCapitalized()
    ensures '-' !in NavSections[2]
    ensures Capitalize(NavSections[2]) == "App"
  {
  }

  /** The header link to "app" reads "App". */
  lemma NavSectionLabel2()
    ensures NavLabel(NavSections[2]) == "App"
  {
    AppCapitalized();
    WordLabel(NavSections[2]);
  }

  /** "contact" is a single word, and capitalising it gives "Contact". */
  lemma ContactCapitalized()
    ensures '-' !in NavSections[3]
    ensures Capitalize(NavSections[3]) == "Contact"
  {
  }

  /** The header link to "contact" reads "Contact". */
  lemma NavSectionLabel3()
    ensures NavLabel(NavSections[3]) == "Contact"
  {
    ContactCapitalized();
    WordLabel(NavSections[3]);
  }

  // ---------------------------------------------------------------------------
  // Mobile layout
  // ---------------------------------------------------------------------------

  /** The widest viewport, in CSS pixels, that still counts as mobile. */
  const MobileBreakpoint := 768

  /** The page is on mobile when the window is at most the breakpoint wide. */
  predicate IsMobile(innerWidth: int)
  {
    innerWidth <= MobileBreakpoint
  }

  /** The breakpoint itself is mobile, one pixel more is not, and narrowing a mobile window keeps it mobile. */
  lemma MobileThreshold(w1: int, w2: int)
    ensures IsMobile(MobileBreakpoint) && !IsMobile(MobileBreakpoint + 1)
    ensures IsMobile(w1) <==> w1 < MobileBreakpoint + 1
    ensures IsMobile(w2) && w1 <= w2 ==> IsMobile(w1)
  {
  }

  // ---------------------------------------------------------------------------
  // Waitlist form
  // ---------------------------------------------------------------------------

  /** The four fields the form's behaviour depends on. */
  datatype FormState = FormState(name: string, email: string, loading: bool, submitted: bool)

  /** Empty fields, nothing pending, the form on screen. */
  const Initial := FormState("", "", false, false)

  /** The form is on screen until a submission has completed. */
  predicate FormShown(s: FormState) { !s.submitted }

  /** The success panel replaces the form once a submission has completed. */
  predicate SuccessShown(s: FormState) { s.submitted }

  /** The submit button is disabled while a submission is pending. */
  predicate SubmitEnabled(s: FormState) { !s.loading }

  /**
   * The browser fires the form's submit only when the form is on screen, its
   * submit button is enabled, both required fields are filled in and the
   * e-mail field passes the browser's own address check, `emailAccepted`.
   */
  predicate CanSubmit(s: FormState, emailAccepted: bool)
    ensures CanSubmit(s, emailAccepted) ==> !SuccessShown(s) && Consistent(s)
  {
    FormShown(s) && SubmitEnabled(s) && s.name != "" && s.email != "" && emailAccepted
  }

  /** A submission is never pending and completed at once. */
  predicate Consistent(s: FormState) { !(s.loading && s.submitted) }

  /** What the visitor can do, and the end of the simulated wait. */
  datatype Event =
    | NameTyped(value: string)
    | EmailTyped(value: string)
    | SubmitPressed(emailAccepted: bool)
    | WaitOver
    | BackToForm

  /** The effect of one event; an event whose control is not on screen or is disabled changes nothing. */
  function Step(s: FormState, ev: Event): (t: FormState)
    ensures !ev.NameTyped? ==> t.name == s.name
    ensures !ev.EmailTyped? ==> t.email == s.email
    ensures Consistent(s) ==> Consistent(t)
    ensures s.loading && !ev.WaitOver? ==> t.loading
    ensures s.loading && ev.WaitOver? ==> t.submitted && !t.loading
    ensures t.submitted && !s.submitted ==> s.loading
  {
    match ev
    case NameTyped(v) => if FormShown(s) then s.(name := v) else s
    case EmailTyped(v) => if FormShown(s) then s.(email := v) else s
    case SubmitPressed(ok) => if CanSubmit(s, ok) then s.(loading := true) else s
    case WaitOver => if s.loading then s.(submitted := true, loading := false) else s
    case BackToForm => if SuccessShown(s) then s.(submitted := false) else s
  }

  /** The state after a sequence of events, in order. */
  function Run(s: FormState, evs: seq<Event>): (r: FormState)
    ensures s.submitted && (forall k :: 0 <= k < |evs| ==> !evs[k].BackToForm?) ==> r.submitted
    decreases |evs|
  {
    if evs == [] then s else Run(Step(s, evs[0]), evs[1..])
  }

  predicate Typing(ev: Event) { ev.NameTyped? || ev.EmailTyped? }

  /** Every state the page can reach from its initial one is consistent. */
  lemma {:induction false} RunKeepsConsistent(s: FormState, evs: seq<Event>)
    requires Consistent(s)
    ensures Consistent(Run(s, evs))
    decreases |evs|
  {
    if evs != [] {
      RunKeepsConsistent(Step(s, evs[0]), evs[1..]);
    }
  }

  /** Only keystrokes in the two fields change the name and the e-mail; submitting and going back keep them. */
  lemma {:induction false} RunKeepsFieldsWithoutTyping(s: FormState, evs: seq<Event>)
    requires forall k :: 0 <= k < |evs| ==> !Typing(evs[k])
    ensures Run(s, evs).name == s.name && Run(s, evs).email == s.email
    decreases |evs|
  {
    if evs != [] {
      RunKeepsFieldsWithoutTyping(Step(s, evs[0]), evs[1..]);
    }
  }

  /**
   * A pending submission has no failure path: whatever the visitor does in
   * the meantime, it stays pending until the wait is over and then completes.
   */
  lemma {:induction false} PendingCompletes(s: FormState, evs: seq<Event>)
    requires s.loading
    requires forall k :: 0 <= k < |evs| ==> !evs[k].WaitOver?
    ensures Run(s, evs).loading
    ensures Run(s, evs + [WaitOver]).submitted && !Run(s, evs + [WaitOver]).loading
    decreases |evs|
  {
    if evs != [] {
      PendingCompletes(Step(s, evs[0]), evs[1..]);
      assert (evs + [WaitOver])[1..] == evs[1..] + [WaitOver];
    } else {
      assert [] + [WaitOver] == [WaitOver];
    }
  }

  /**
   * A submission the browser lets through always ends on the success panel
   * once the wait is over, whatever the visitor types in the meantime.
   */
  lemma SubmissionAlwaysCompletes(s: FormState, emailAccepted: bool, evs: seq<Event>)
    requires CanSubmit(s, emailAccepted)
    requires forall k :: 0 <= k < |evs| ==> !evs[k].WaitOver?
    ensures SuccessShown(Run(s, [SubmitPressed(emailAccepted)] + evs + [WaitOver]))
  {
    var all := [SubmitPressed(emailAccepted)] + evs + [WaitOver];
    assert all[1..] == evs + [WaitOver];
    PendingCompletes(Step(s, SubmitPressed(emailAccepted)), evs);
  }

  /**
   * Going back to the form after a completed submission does not restore the
   * initial state: the name and e-mail typed before are still there.
   */
  lemma BackToFormKeepsTypedText()
    ensures Run(Initial, [NameTyped("Ada"), EmailTyped("ada@example.com"), SubmitPressed(true), WaitOver, BackToForm])
         == FormState("Ada", "ada@example.com", false, false)
    ensures FormState("Ada", "ada@example.com", false, false) != Initial
  {
  }

  /** While a submission is pending, pressing submit again starts nothing. */
  lemma NoSubmitWhilePending(s: FormState, emailAccepted: bool)
    requires s.loading
    ensures !CanSubmit(s, emailAccepted)
    ensures Step(s, SubmitPressed(emailAccepted)) == s
  {
  }

  /** Going back to the form shows the form again with the name and e-mail left as they were. */
  lemma BackToFormKeepsFields(s: FormState)
    requires SuccessShown(s)
    ensures FormShown(Step(s, BackToForm))
    ensures Step(s, BackToForm).name == s.name && Step(s, BackToForm).email == s.email
  {
  }

  /** Exactly one of the form and the success panel is on screen. */
  lemma ExactlyOnePanel(s: FormState)
    ensures FormShown(s) != SuccessShown(s)
  {
  }

  /** The waitlist section of the page, with the fields its handlers update. */
  class WaitlistForm {
    var name: string
    var email: string
    var loading: bool
    var submitted: bool

    function State(): FormState
      reads this
    {
      FormState(name, email, loading, submitted)
    }

    ghost predicate Valid()
      reads this
    {
      Consistent(State())
    }

    constructor()
      ensures State() == Initial
      ensures Valid()
    {
      name := "";
      email := "";
      loading := false;
      submitted := false;
    }

    /** A keystroke in the name field, which exists only while the form is on screen. */
    method SetName(value: string)
      requires Valid() && FormShown(State())
      modifies this
      ensures State() == Step(old(State()), NameTyped(value))
      ensures Valid()
      ensures name == value && email == old(email)
    {
      name := value;
    }

    /** A keystroke in the e-mail field, which exists only while the form is on screen. */
    method SetEmail(value: string)
      requires Valid() && FormShown(State())
      modifies this
      ensures State() == Step(old(State()), EmailTyped(value))
      ensures Valid()
      ensures email == value && name == old(name)
    {
      email := value;
    }

    /**
     * Pressing submit: when the browser lets the submission through, the
     * handler marks it pending before the simulated wait; otherwise nothing
     * changes. `started` tells which.
     */
    method BeginSubmit(emailAccepted: bool) returns (started: bool)
      requires Valid()
      modifies this
      ensures started == CanSubmit(old(State()), emailAccepted)
      ensures State() == Step(old(State()), SubmitPressed(emailAccepted))
      ensures Valid()
      ensures old(loading) ==> !started
      ensures started ==> loading && !submitted
      ensures name == old(name) && email == old(email)
    {
      started := !submitted && !loading && name != "" && email != "" && emailAccepted;
      if started {
        loading := true;
      }
    }

    /** The end of the simulated wait: the submission completes and is no longer pending. */
    method CompleteSubmit()
      requires Valid() && loading
      modifies this
      ensures State() == Step(old(State()), WaitOver)
      ensures Valid()
      ensures submitted && !loading
      ensures name == old(name) && email == old(email)
    {
      submitted := true;
      loading := false;
    }

    /** "Back to Form": only the success flag is cleared. */
    method Reset()
      requires Valid() && SuccessShown(State())
      modifies this
      ensures State() == Step(old(State()), BackToForm)
      ensures Valid()
      ensures !submitted
      ensures name == old(name) && email == old(email) && loading == old(loading)
    {
      submitted := false;
    }

    /** The whole submit handler: begin, wait, complete. A started submission always ends on the success panel. */
    method Submit(emailAccepted: bool) returns (started: bool)
      requires Valid()
      modifies this
      ensures started == CanSubmit(old(State()), emailAccepted)
      ensures started ==> State() == Run(old(State()), [SubmitPressed(emailAccepted), WaitOver])
      ensures started ==> SuccessShown(State()) && !loading
      ensures !started ==> State() == old(State())
      ensures Valid()
      ensures name == old(name) && email == old(email)
    {
      ghost var before := State();
      started := BeginSubmit(emailAccepted);
      if started {
        ghost var pending := State();
        CompleteSubmit();
        assert Run(pending, [WaitOver]) == Step(pending, WaitOver);
        assert Run(before, [SubmitPressed(emailAccepted), WaitOver]) == Run(pending, [WaitOver]);
      }
    }
  }
}
