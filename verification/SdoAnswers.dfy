/** The map of received but unfetched SDO answers, seen by the object that an answer is about. */
module SdoAnswers {
  import opened Words
  import opened CanMsgs
  import opened SdoMsgs

  /** The id under which answers for an object are kept: `(index << 8) + subIndex`. */
  function AnswerId(o: Object): Uint32 {
    o.index * 0x100 + o.subIndex
  }

  lemma AnswerIdInjective(a: Object, b: Object)
    requires AnswerId(a) == AnswerId(b)
    ensures a == b
  {}

  function Lookup(answers: map<Uint32, Frame>, o: Object): Option<Frame> {
    if AnswerId(o) in answers then Some(answers[AnswerId(o)]) else None
  }

  function Store(answers: map<Uint32, Frame>, o: Object, f: Frame): map<Uint32, Frame> {
    answers[AnswerId(o) := f]
  }

  function Remove(answers: map<Uint32, Frame>, o: Object): map<Uint32, Frame> {
    answers - {AnswerId(o)}
  }

  /** A store is seen under its own object only. */
  lemma StoreChangesOne(answers: map<Uint32, Frame>, o: Object, f: Frame, p: Object)
    ensures Lookup(Store(answers, o, f), p) == if p == o then Some(f) else Lookup(answers, p)
  {
    if AnswerId(p) == AnswerId(o) { AnswerIdInjective(p, o); }
  }

  /** So is a removal. */
  lemma RemoveChangesOne(answers: map<Uint32, Frame>, o: Object, p: Object)
    ensures Lookup(Remove(answers, o), p) == if p == o then None else Lookup(answers, p)
  {
    if AnswerId(p) == AnswerId(o) { AnswerIdInjective(p, o); }
  }

  /** What an event does to the answer for one object. */
  datatype Effect = Untouched | Taken | Kept(answer: Frame)

  /** `f` was kept, and nothing happened to the answer since. */
  ghost predicate KeptLast(effects: seq<Effect>, f: Frame) {
    exists i :: 0 <= i < |effects| && effects[i] == Kept(f) && forall j | i < j < |effects| :: effects[j] == Untouched
  }

  lemma KeptLastStep(effects: seq<Effect>, e: Effect, f: Frame)
    ensures KeptLast(effects + [e], f) <==> e == Kept(f) || (e == Untouched && KeptLast(effects, f))
  {
    var all := effects + [e];
    if e == Kept(f) { assert all[|effects|] == Kept(f); }
    if e == Untouched && KeptLast(effects, f) {
      var i :| 0 <= i < |effects| && effects[i] == Kept(f) && forall j | i < j < |effects| :: effects[j] == Untouched;
      assert all[i] == Kept(f);
    }
    if KeptLast(all, f) && e != Kept(f) {
      var i :| 0 <= i < |all| && all[i] == Kept(f) && forall j | i < j < |all| :: all[j] == Untouched;
      assert effects[i] == Kept(f) && all[|effects|] == Untouched;
      forall j | i < j < |effects| ensures effects[j] == Untouched { assert all[j] == Untouched; }
    }
  }
}
