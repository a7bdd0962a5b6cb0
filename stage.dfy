/** The stage protocol of the v1 push engine: a `baseStage` holds one behaviour per
    protocol call (`Begin`, `Accept`, `CanFinish`, `End`) and only dispatches to
    them; an option overwrites one of the four, and the two constructors apply their
    options in order on top of their defaults. The behaviours are kept abstract
    here (type parameters); module Chain gives them meaning. */
module Stage {

  /** The four behaviour slots of a baseStage. */
  datatype Handlers<B, A, F, E> = Handlers(begin: B, action: A, canFinish: F, end: E)

  /** The four option setters: each replaces one slot. */
  datatype StageOption<B, A, F, E> =
    | SetBegin(onBegin: B)
    | SetAction(onAction: A)
    | SetCanFinish(judge: F)
    | SetEnd(onEnd: E)

  /** A chained stage's slot: the downstream stage's method, or the operator's own behaviour. */
  datatype Slot = Down | Own

  /** Applies one option. */
  function Apply<B, A, F, E>(h: Handlers<B, A, F, E>, o: StageOption<B, A, F, E>): (r: Handlers<B, A, F, E>)
    ensures o.SetBegin? ==> r == h.(begin := o.onBegin)
    ensures o.SetAction? ==> r == h.(action := o.onAction)
    ensures o.SetCanFinish? ==> r == h.(canFinish := o.judge)
    ensures o.SetEnd? ==> r == h.(end := o.onEnd)
  {
    match o
    case SetBegin(b) => h.(begin := b)
    case SetAction(a) => h.(action := a)
    case SetCanFinish(f) => h.(canFinish := f)
    case SetEnd(e) => h.(end := e)
  }

  /** Applies the options in order, first to last. */
  function ApplyAll<B, A, F, E>(h: Handlers<B, A, F, E>, opts: seq<StageOption<B, A, F, E>>): (r: Handlers<B, A, F, E>)
  {
    if opts == [] then h else Apply(ApplyAll(h, opts[..|opts| - 1]), opts[|opts| - 1])
  }

  /** Applying one, two or three options is applying each in turn. */
  lemma ApplyAllOne<B, A, F, E>(h: Handlers<B, A, F, E>, a: StageOption<B, A, F, E>)
    ensures ApplyAll(h, [a]) == Apply(h, a)
  {
    assert [a][..0] == [];
  }

  lemma ApplyAllTwo<B, A, F, E>(h: Handlers<B, A, F, E>, a: StageOption<B, A, F, E>, b: StageOption<B, A, F, E>)
    ensures ApplyAll(h, [a, b]) == Apply(Apply(h, a), b)
  {
    assert [a, b][..1] == [a];
    ApplyAllOne(h, a);
  }

  lemma ApplyAllThree<B, A, F, E>(h: Handlers<B, A, F, E>, a: StageOption<B, A, F, E>, b: StageOption<B, A, F, E>,
                                  c: StageOption<B, A, F, E>)
    ensures ApplyAll(h, [a, b, c]) == Apply(Apply(Apply(h, a), b), c)
  {
    assert [a, b, c][..2] == [a, b];
    ApplyAllTwo(h, a, b);
  }

  /** A slot no option sets keeps its default. */
  lemma {:induction false} UntouchedSlotsKeepDefaults<B, A, F, E>(h: Handlers<B, A, F, E>, opts: seq<StageOption<B, A, F, E>>)
    ensures (forall i :: 0 <= i < |opts| ==> !opts[i].SetBegin?) ==> ApplyAll(h, opts).begin == h.begin
    ensures (forall i :: 0 <= i < |opts| ==> !opts[i].SetAction?) ==> ApplyAll(h, opts).action == h.action
    ensures (forall i :: 0 <= i < |opts| ==> !opts[i].SetCanFinish?) ==> ApplyAll(h, opts).canFinish == h.canFinish
    ensures (forall i :: 0 <= i < |opts| ==> !opts[i].SetEnd?) ==> ApplyAll(h, opts).end == h.end
  {
    if opts != [] {
      UntouchedSlotsKeepDefaults(h, opts[..|opts| - 1]);
    }
  }

  /** The last option that sets a slot decides it. */
  lemma {:induction false} LastOptionWins<B, A, F, E>(h: Handlers<B, A, F, E>, opts: seq<StageOption<B, A, F, E>>, i: int)
    requires 0 <= i < |opts|
    ensures opts[i].SetBegin? && (forall j :: i < j < |opts| ==> !opts[j].SetBegin?)
      ==> ApplyAll(h, opts).begin == opts[i].onBegin
    ensures opts[i].SetAction? && (forall j :: i < j < |opts| ==> !opts[j].SetAction?)
      ==> ApplyAll(h, opts).action == opts[i].onAction
    ensures opts[i].SetCanFinish? && (forall j :: i < j < |opts| ==> !opts[j].SetCanFinish?)
      ==> ApplyAll(h, opts).canFinish == opts[i].judge
    ensures opts[i].SetEnd? && (forall j :: i < j < |opts| ==> !opts[j].SetEnd?)
      ==> ApplyAll(h, opts).end == opts[i].onEnd
  {
    var n := |opts| - 1;
    if i < n {
      LastOptionWins(h, opts[..n], i);
    }
  }

  /** Options touching different slots can be applied in either order. */
  lemma OptionsOnDifferentSlotsCommute<B, A, F, E>(h: Handlers<B, A, F, E>, o1: StageOption<B, A, F, E>, o2: StageOption<B, A, F, E>)
    requires o1.SetBegin? != o2.SetBegin? || o1.SetAction? != o2.SetAction?
          || o1.SetCanFinish? != o2.SetCanFinish? || o1.SetEnd? != o2.SetEnd?
    ensures Apply(Apply(h, o1), o2) == Apply(Apply(h, o2), o1)
  {
  }

  /** The defaults of a chained stage: every slot is the downstream stage's method. */
  function ChainedDefaults(): (r: Handlers<Slot, Slot, Slot, Slot>)
    ensures r.begin == r.action == r.canFinish == r.end == Down
  {
    Handlers(Down, Down, Down, Down)
  }

  /** A mutable baseStage: four slots that options overwrite in place. */
  class BaseStage<B, A, F, E> {
    var begin: B
    var action: A
    var canFinish: F
    var end: E

    function Current(): Handlers<B, A, F, E>
      reads this
    {
      Handlers(begin, action, canFinish, end)
    }

    /** `o(b)`: the option assigns its one slot. */
    method ApplyOption(o: StageOption<B, A, F, E>)
      modifies this
      ensures Current() == Apply(old(Current()), o)
    {
      match o
      case SetBegin(b) => begin := b;
      case SetAction(a) => action := a;
      case SetCanFinish(f) => canFinish := f;
      case SetEnd(e) => end := e;
    }

    /** `newChainedStage(down, opts...)`: start from the downstream stage's methods,
        then apply the options in order. */
    constructor Chained(down: Handlers<B, A, F, E>, opts: seq<StageOption<B, A, F, E>>)
      ensures Current() == ApplyAll(down, opts)
    {
      begin, action, canFinish, end := down.begin, down.action, down.canFinish, down.end;
      new;
      var i := 0;
      while i < |opts|
        invariant 0 <= i <= |opts|
        invariant Current() == ApplyAll(down, opts[..i])
      {
        assert opts[..i + 1][..i] == opts[..i];
        ApplyOption(opts[i]);
        i := i + 1;
      }
      assert opts[..i] == opts;
    }

    /** `newTerminalStage(action, opts...)`: start from a no-op Begin, a CanFinish that is
        always false and a no-op End around the given action, then apply the options. */
    constructor Terminal(onAction: A, noBegin: B, never: F, noEnd: E, opts: seq<StageOption<B, A, F, E>>)
      ensures Current() == ApplyAll(Handlers(noBegin, onAction, never, noEnd), opts)
    {
      begin, action, canFinish, end := noBegin, onAction, never, noEnd;
      new;
      var i := 0;
      while i < |opts|
        invariant 0 <= i <= |opts|
        invariant Current() == ApplyAll(Handlers(noBegin, onAction, never, noEnd), opts[..i])
      {
        assert opts[..i + 1][..i] == opts[..i];
        ApplyOption(opts[i]);
        i := i + 1;
      }
      assert opts[..i] == opts;
    }
  }
}
