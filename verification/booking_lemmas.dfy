/**
 * Facts relating several booking transitions: the table invariant is kept
 * by every transition, so token lookups are never ambiguous; confirmation
 * and completion are single-use; the held / not-held links overwrite.
 */
module BookingLemmas {
  import opened Common
  import opened Mail
  import opened Sessions
  import opened Bookings

  /** Replacing a row by one that keeps its key and tokens keeps the table valid. */
  lemma PutKeepsValid(st: Store, i: nat, b: Booking)
    requires Valid(st) && i < |st.bookings|
    requires b.id == st.bookings[i].id
    requires b.mentorToken == st.bookings[i].mentorToken
    requires b.completionToken == st.bookings[i].completionToken
    ensures Valid(Put(st, i, b))
  {
  }

  /** Replacing a row by one the predicate treats alike does not change what `get` finds. */
  lemma GetAfterPut(st: Store, i: nat, b: Booking, p: Booking -> bool)
    requires i < |st.bookings| && p(b) == p(st.bookings[i])
    ensures Get(Put(st, i, b).bookings, p) == Get(st.bookings, p)
  {
    GetAgrees(st.bookings, Put(st, i, b).bookings, p);
  }

  lemma ValidLookupsAreUnique(st: Store, token: string)
    requires Valid(st)
    ensures Get(st.bookings, ByMentorToken(token)) != MultipleFound
    ensures Get(st.bookings, ByCompletionToken(token)) != MultipleFound
  {
    var bs := st.bookings;
    forall i, j | 0 <= i < |bs| && 0 <= j < |bs| && ByMentorToken(token)(bs[i]) && ByMentorToken(token)(bs[j])
      ensures i == j
    {
    }
    GetUnique(bs, ByMentorToken(token));
    forall i, j | 0 <= i < |bs| && 0 <= j < |bs| && ByCompletionToken(token)(bs[i]) && ByCompletionToken(token)(bs[j])
      ensures i == j
    {
    }
    GetUnique(bs, ByCompletionToken(token));
  }

  /** Creating a booking with tokens from the fresh-name oracle keeps the table valid. */
  lemma CreateKeepsValid(st: Store, form: Option<BookingRequest>, now: Instant, origin: string,
                         mentorToken: string, completionToken: string, cfg: Config)
    requires Valid(st)
    requires IsFreshToken(st, mentorToken) && IsFreshToken(st, completionToken)
    ensures Valid(Create(st, form, now, origin, mentorToken, completionToken, cfg).store)
  {
    if form.Some? {
      var st' := Create(st, form, now, origin, mentorToken, completionToken, cfg).store;
      var n := |st.bookings|;
      assert forall i :: 0 <= i < n ==> st'.bookings[i] == st.bookings[i];
    }
  }

  lemma ConfirmKeepsValid(st: Store, token: string, now: Instant, cfg: Config)
    requires Valid(st)
    ensures Confirm(st, token, now, cfg).outcome != ServerError
    ensures Valid(Confirm(st, token, now, cfg).store)
  {
    ValidLookupsAreUnique(st, token);
    var f := Get(st.bookings, ByMentorToken(token));
    var r := Confirm(st, token, now, cfg);
    if f.Found? && r.outcome == SessionConfirmed {
      PutKeepsValid(st, f.index, r.store.bookings[f.index]);
    }
  }

  lemma CompleteKeepsValid(st: Store, token: string, now: Instant)
    requires Valid(st)
    ensures Complete(st, token, now).outcome != ServerError
    ensures Valid(Complete(st, token, now).store)
  {
    ValidLookupsAreUnique(st, token);
    var g := Get(st.bookings, ByCompletionToken(token));
    var r := Complete(st, token, now);
    if g.Found? && r.outcome == CompletionRecorded {
      PutKeepsValid(st, g.index, r.store.bookings[g.index]);
    }
  }

  lemma MarksKeepValid(st: Store, token: string, now: Instant)
    requires Valid(st)
    ensures MarkHeld(st, token, now).outcome != ServerError && Valid(MarkHeld(st, token, now).store)
    ensures MarkNotHeld(st, token, now).outcome != ServerError && Valid(MarkNotHeld(st, token, now).store)
  {
    ValidLookupsAreUnique(st, token);
    var g := Get(st.bookings, ByCompletionToken(token));
    if g.Found? {
      PutKeepsValid(st, g.index, MarkHeld(st, token, now).store.bookings[g.index]);
      PutKeepsValid(st, g.index, MarkNotHeld(st, token, now).store.bookings[g.index]);
    }
  }

  /** On a valid table no token link ends in a server error, and every
      transition keeps the table valid. */
  lemma TransitionsKeepValid(st: Store, token: string, now: Instant, cfg: Config)
    requires Valid(st)
    ensures Confirm(st, token, now, cfg).outcome != ServerError && Valid(Confirm(st, token, now, cfg).store)
    ensures Complete(st, token, now).outcome != ServerError && Valid(Complete(st, token, now).store)
    ensures MarkHeld(st, token, now).outcome != ServerError && Valid(MarkHeld(st, token, now).store)
    ensures MarkNotHeld(st, token, now).outcome != ServerError && Valid(MarkNotHeld(st, token, now).store)
  {
    ConfirmKeepsValid(st, token, now, cfg);
    CompleteKeepsValid(st, token, now);
    MarksKeepValid(st, token, now);
  }

  /** A consumed mentor link never confirms again: a second visit changes
      nothing, sends nothing, and reports "already confirmed" while the
      window is open and "expired" after it. */
  lemma {:induction false} ConfirmIsSingleUse(st: Store, token: string, now: Instant, later: Instant, cfg: Config)
    requires Confirm(st, token, now, cfg).outcome == SessionConfirmed
    ensures var st' := Confirm(st, token, now, cfg).store;
      var again := Confirm(st', token, later, cfg);
      && again.store == st' && again.jobs == []
      && again.outcome in {AlreadyConfirmed, LinkExpired}
      && (again.outcome == AlreadyConfirmed <==> IsTokenValid(st.bookings[Get(st.bookings, ByMentorToken(token)).index], later))
  {
    var i := Get(st.bookings, ByMentorToken(token)).index;
    var st' := Confirm(st, token, now, cfg).store;
    GetAfterPut(st, i, st'.bookings[i], ByMentorToken(token));
  }

  /** Likewise a consumed completion link never completes again. */
  lemma {:induction false} CompleteIsSingleUse(st: Store, token: string, now: Instant, later: Instant)
    requires Complete(st, token, now).outcome == CompletionRecorded
    ensures var st' := Complete(st, token, now).store;
      var again := Complete(st', token, later);
      && again.store == st' && again.jobs == []
      && again.outcome in {AlreadyCompleted, LinkExpired}
  {
    var i := Get(st.bookings, ByCompletionToken(token)).index;
    var st' := Complete(st, token, now).store;
    GetAfterPut(st, i, st'.bookings[i], ByCompletionToken(token));
  }

  /** Confirming through the mentor link does not change what the completion
      link does afterwards: the two tokens are consumed independently. */
  lemma {:induction false} ConfirmLeavesCompletionAlone(st: Store, mentorToken: string, completionToken: string,
                                                        now: Instant, later: Instant, cfg: Config)
    ensures Complete(Confirm(st, mentorToken, now, cfg).store, completionToken, later).outcome
         == Complete(st, completionToken, later).outcome
  {
    var r := Confirm(st, mentorToken, now, cfg);
    if r.outcome == SessionConfirmed {
      var i := Get(st.bookings, ByMentorToken(mentorToken)).index;
      GetAfterPut(st, i, r.store.bookings[i], ByCompletionToken(completionToken));
      var g := Get(st.bookings, ByCompletionToken(completionToken));
      if g.Found? && g.index == i {
        assert r.store.bookings[i].sessionCompleted == st.bookings[i].sessionCompleted;
        assert r.store.bookings[i].tokenGeneratedAt == st.bookings[i].tokenGeneratedAt;
      }
    }
  }

  /** The held link has no repeat guard: a second visit succeeds again and
      moves `completed_at` to the time of the second visit. */
  lemma {:induction false} MarkHeldOverwrites(st: Store, token: string, now: Instant, later: Instant)
    requires MarkHeld(st, token, now).outcome == HeldRecorded
    ensures var st' := MarkHeld(st, token, now).store;
      var i := Get(st.bookings, ByCompletionToken(token)).index;
      && MarkHeld(st', token, later).outcome == HeldRecorded
      && MarkHeld(st', token, later).store.bookings[i].completedAt == Some(later)
  {
    var i := Get(st.bookings, ByCompletionToken(token)).index;
    var st' := MarkHeld(st, token, now).store;
    GetAfterPut(st, i, st'.bookings[i], ByCompletionToken(token));
  }

  /** The not-held link undoes a completion recorded by the held link. */
  lemma {:induction false} NotHeldClearsCompletion(st: Store, token: string, now: Instant, later: Instant)
    requires MarkHeld(st, token, now).outcome == HeldRecorded
    ensures var st' := MarkHeld(st, token, now).store;
      var i := Get(st.bookings, ByCompletionToken(token)).index;
      && st'.bookings[i].sessionCompleted
      && MarkNotHeld(st', token, later).outcome == NotHeldRecorded
      && !MarkNotHeld(st', token, later).store.bookings[i].sessionCompleted
      && MarkNotHeld(st', token, later).store.bookings[i].sessionHeld == Some(false)
  {
    var i := Get(st.bookings, ByCompletionToken(token)).index;
    var st' := MarkHeld(st, token, now).store;
    GetAfterPut(st, i, st'.bookings[i], ByCompletionToken(token));
  }
}
