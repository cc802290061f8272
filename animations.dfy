/** The skill-bar animation (script.js:301-329): the first time the skills
    section is at least half visible, every progress bar's width is saved,
    set to `'0'`, and restored by a 100 ms timer, so that it grows back.
    The `skillsAnimated` flag makes this happen at most once. */
module Animations {

  class SkillBars {
    /** The page has a `#skills` section (only then is it observed). */
    const present: bool
    /** `skillsObserver` still observes the section. */
    var observing: bool
    /** `skillsAnimated`. */
    var skillsAnimated: bool
    /** Each `.skill-progress` bar's `style.width`. */
    var widths: seq<string>
    /** The widths captured when the animation began. */
    var saved: seq<string>
    /** The restore timers are scheduled and have not run. */
    var restorePending: bool
    /** How many times the bars were reset to zero. */
    var starts: nat

    /** The animation has run once exactly when the flag is set; an
        observed section has not been animated yet; restores are pending
        only after a start and restore one width per bar. */
    ghost predicate Valid()
      reads this
    {
      && starts == (if skillsAnimated then 1 else 0)
      && (observing ==> present && !skillsAnimated)
      && (restorePending ==> skillsAnimated && |saved| == |widths|)
    }

    constructor (present: bool, widths: seq<string>)
      ensures Valid() && this.present == present && this.widths == widths
      ensures observing == present && !skillsAnimated && starts == 0
    {
      this.present := present;
      this.widths := widths;
      observing := present;
      skillsAnimated := false;
      saved := [];
      restorePending := false;
      starts := 0;
    }

    /** One batch of intersection entries for the section, handled in
        order: an intersecting entry, while the flag is clear, starts the
        animation, sets the flag and stops the observation. Nothing is
        delivered once the section is no longer observed. */
    method Intersect(entries: seq<bool>)
      requires Valid()
      modifies this
      ensures Valid()
      ensures starts <= 1
      ensures skillsAnimated == (old(skillsAnimated) || (old(observing) && true in entries))
      ensures !old(observing) ==> unchanged(this)
      ensures old(observing) && true !in entries ==> unchanged(this)
      ensures old(observing) && true in entries ==>
        && saved == old(widths) && |widths| == |old(widths)|
        && (forall k :: 0 <= k < |widths| ==> widths[k] == "0")
        && restorePending && !observing
    {
      if !observing {
        return;
      }
      var i := 0;
      while i < |entries|
        invariant 0 <= i <= |entries|
        invariant Valid()
        invariant skillsAnimated == (true in entries[..i])
        invariant observing == !skillsAnimated
        invariant !skillsAnimated ==> unchanged(this)
        invariant skillsAnimated ==>
          && saved == old(widths) && |widths| == |old(widths)|
          && (forall k :: 0 <= k < |widths| ==> widths[k] == "0")
          && restorePending
      {
        if entries[i] && !skillsAnimated {
          saved := widths;
          widths := seq(|widths|, _ => "0");
          restorePending := true;
          starts := starts + 1;
          skillsAnimated := true;
          observing := false;
        }
        assert entries[..i + 1] == entries[..i] + [entries[i]];
        i := i + 1;
      }
      assert entries[..i] == entries;
    }

    /** The 100 ms timers run: every bar gets its saved width back. */
    method RestoreTimers()
      requires Valid()
      modifies this
      ensures Valid()
      ensures old(restorePending) ==> widths == old(saved) && !restorePending
      ensures !old(restorePending) ==> unchanged(this)
      ensures skillsAnimated == old(skillsAnimated) && starts == old(starts)
      ensures saved == old(saved)
    {
      if restorePending {
        widths := saved;
        restorePending := false;
      }
    }
  }

  /** The section scrolls in and out of view three times; the bars are
      reset and regrown once only, and end at their original widths. */
  method RepeatedIntersectionsAnimateOnce() returns (starts: nat, widths: seq<string>)
    ensures starts == 1 && widths == ["90%", "75%"]
  {
    var bars := new SkillBars(true, ["90%", "75%"]);
    bars.Intersect([true]);
    bars.RestoreTimers();
    bars.Intersect([false]);
    bars.Intersect([true, true]);
    bars.RestoreTimers();
    starts, widths := bars.starts, bars.widths;
  }
}
