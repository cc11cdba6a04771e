/**
 * The password screen: each event, paired with the Shift flag, becomes an
 * action, and each action edits the password buffer until Submit ends the
 * loop. The drawing and the (unfinished) return value are not modelled.
 */
module PwScreen {
  import opened Bytes
  import opened UiEvent
  import App

  /** `Action` */
  datatype Action = AppendChar(c: Byte) | Backspace | Clear | Submit | NoOp

  /** `u8::to_ascii_uppercase` */
  function ToAsciiUppercase(c: Byte): Byte
  {
    if 'a' as int <= c <= 'z' as int then c - 0x20 else c
  }

  /** The letter a direction or center key types: the initial of its name, lower-cased. */
  function KeyLetter(k: Key): Byte
  {
    match k
    case Up => 'u' as int
    case Down => 'd' as int
    case Left => 'l' as int
    case Right => 'r' as int
    case Center => 'c' as int
    case _ => 0
  }

  /** The five keys that type a letter. */
  predicate IsLetterKey(k: Key)
  {
    k in {Up, Down, Left, Right, Center}
  }

  /** `Action::from((event, shift))` */
  function ToAction(ev: Event, shift: bool): (a: Action)
  {
    match ev
    case KeyDown(k) =>
      if IsLetterKey(k) then
        (if shift then AppendChar(ToAsciiUppercase(KeyLetter(k))) else AppendChar(KeyLetter(k)))
      else if k == Enter then Submit
      else if k == Back then (if shift then Clear else Backspace)
      else NoOp
    case KeyUp(_) => NoOp
  }

  /** The bytes a password can be typed with. */
  const Alphabet: set<Byte> := set c | c in "udlrcUDLRC" :: c as int

  /**
   * Each event's action, stated against the keys' names: a letter key types
   * the initial of its name, upper-case exactly when Shift is held; Enter
   * submits; Back clears with Shift and deletes one byte without; a press of
   * Shift and every release do nothing.
   */
  lemma ToActionCases(ev: Event, shift: bool)
    ensures ToAction(ev, shift).AppendChar? <==> ev.KeyDown? && IsLetterKey(ev.key)
    ensures ToAction(ev, shift).AppendChar? ==>
      var c := ToAction(ev, shift).c;
      var initial := KeyName(ev.key)[0] as int;
      && c in Alphabet
      && (shift ==> c == initial)
      && (!shift ==> c == initial + 0x20)
    ensures ToAction(ev, shift) == Submit <==> ev == KeyDown(Enter)
    ensures ToAction(ev, shift) == Clear <==> ev == KeyDown(Back) && shift
    ensures ToAction(ev, shift) == Backspace <==> ev == KeyDown(Back) && !shift
    ensures ToAction(ev, shift) == NoOp <==> ev.KeyUp? || ev == KeyDown(Shift)
  {
    if ev.KeyDown? && IsLetterKey(ev.key) {
      LetterInAlphabet(ev.key);
    }
  }

  /** A letter key's byte, in either case, is in the alphabet. */
  lemma LetterInAlphabet(k: Key)
    requires IsLetterKey(k)
    ensures KeyLetter(k) in Alphabet && ToAsciiUppercase(KeyLetter(k)) in Alphabet
  {
    var letters := "udlrcUDLRC";
    match k
    case Up => assert letters[0] == 'u' && letters[5] == 'U';
    case Down => assert letters[1] == 'd' && letters[6] == 'D';
    case Left => assert letters[2] == 'l' && letters[7] == 'L';
    case Right => assert letters[3] == 'r' && letters[8] == 'R';
    case Center => assert letters[4] == 'c' && letters[9] == 'C';
  }

  /** `SecStr::resize` (as `Vec::resize`): cut to n bytes, or extend to n with copies of `value`. */
  function Resize(buffer: Bytes, n: nat, value: Byte): (r: Bytes)
    ensures |r| == n
    ensures forall i :: 0 <= i < n && i < |buffer| ==> r[i] == buffer[i]
    ensures forall i :: |buffer| <= i < n ==> r[i] == value
  {
    if n <= |buffer| then buffer[..n] else buffer + seq(n - |buffer|, _ => value)
  }

  /** The screen after an action: still editing, submitted, or stopped by a panic. */
  datatype Screen = Editing(password: Bytes) | Submitted(password: Bytes) | Panicked

  /**
   * One pass of `run`'s loop. Backspace on an empty password subtracts 1 from
   * a zero `usize` and panics. Clear is `SecStr::zero_out`, which overwrites
   * the bytes and leaves the password empty.
   */
  function Apply(password: Bytes, action: Action): (s: Screen)
    ensures action.AppendChar? ==> s == Editing(password + [action.c])
    ensures action == Backspace ==> (s == Panicked <==> |password| == 0)
    ensures action == Backspace && |password| > 0 ==> s == Editing(password[..|password| - 1])
    ensures action == Clear ==> s == Editing([])
    ensures action == Submit ==> s == Submitted(password)
    ensures action == NoOp ==> s == Editing(password)
  {
    match action
    case AppendChar(c) =>
      var grown := Resize(password, |password| + 1, c);
      assert grown == password + [c];
      Editing(grown)
    case Backspace => if |password| == 0 then Panicked else Editing(Resize(password, |password| - 1, 0))
    case Clear => Editing([])
    case Submit => Submitted(password)
    case NoOp => Editing(password)
  }

  /**
   * `run`'s loop over the events the queue yields: it ends at Submit or at a
   * panic, and is still editing if the events run out first.
   */
  function Run(ctx: App.AppCtx, password: Bytes, events: seq<Event>): Screen
    decreases |events|
  {
    if |events| == 0 then Editing(password)
    else
      var (ctx', fetched) := App.FetchEvent(ctx, events[0]);
      match Apply(password, ToAction(fetched.0, fetched.1))
      case Editing(p) => Run(ctx', p, events[1..])
      case done => done
  }

  /** Every byte of the password is one a key can type. */
  predicate Typed(password: Bytes)
  {
    forall i :: 0 <= i < |password| ==> password[i] in Alphabet
  }

  /** Starting from a typed password, the loop only ever holds typed passwords. */
  lemma {:induction false} RunKeepsTyped(ctx: App.AppCtx, password: Bytes, events: seq<Event>)
    requires Typed(password)
    ensures !Run(ctx, password, events).Panicked? ==> Typed(Run(ctx, password, events).password)
    decreases |events|
  {
    if |events| > 0 {
      var (ctx', fetched) := App.FetchEvent(ctx, events[0]);
      var action := ToAction(fetched.0, fetched.1);
      ToActionCases(fetched.0, fetched.1);
      match Apply(password, action)
      case Editing(p) =>
        RunKeepsTyped(ctx', p, events[1..]);
      case _ =>
    }
  }

  /** Events after a Submit are never read: the loop has ended. */
  lemma {:induction false} SubmitEndsRun(ctx: App.AppCtx, password: Bytes, events: seq<Event>, later: seq<Event>)
    requires Run(ctx, password, events).Submitted?
    ensures Run(ctx, password, events + later) == Run(ctx, password, events)
    decreases |events|
  {
    var (ctx', fetched) := App.FetchEvent(ctx, events[0]);
    assert (events + later)[0] == events[0];
    if Apply(password, ToAction(fetched.0, fetched.1)).Editing? {
      var p := Apply(password, ToAction(fetched.0, fetched.1)).password;
      assert (events + later)[1..] == events[1..] + later;
      SubmitEndsRun(ctx', p, events[1..], later);
    }
  }

  /** A fresh screen: press Up, hold Shift for Down, release it, press Center, then Enter; the password is "uDc". */
  lemma TypingUDc(events: seq<Event>)
    requires events == [KeyDown(Up), KeyDown(Shift), KeyDown(Down), KeyUp(Shift), KeyDown(Center), KeyDown(Enter)]
    ensures Run(App.CreateWithDisplay(), [], events) == Submitted(['u' as int, 'D' as int, 'c' as int])
  {
    var ctx := App.CreateWithDisplay();
    assert ToAction(KeyDown(Up), false) == AppendChar('u' as int);
    assert ToAction(KeyDown(Down), true) == AppendChar('D' as int);
    assert ToAction(KeyDown(Center), false) == AppendChar('c' as int);
    assert [] + ['u' as int] == ['u' as int];
    assert ['u' as int] + ['D' as int] == ['u' as int, 'D' as int];
    assert events[2..][0] == KeyDown(Down) && events[2..][1..] == events[3..];
    assert Run(ctx, [], events) == Run(App.AppCtx(false), ['u' as int], events[1..]);
    assert Run(App.AppCtx(false), ['u' as int], events[1..]) == Run(App.AppCtx(true), ['u' as int], events[2..]);
    assert Run(App.AppCtx(true), ['u' as int], events[2..]) == Run(App.AppCtx(true), ['u' as int, 'D' as int], events[3..]);
    assert Run(App.AppCtx(true), ['u' as int, 'D' as int], events[3..]) == Run(App.AppCtx(false), ['u' as int, 'D' as int], events[4..]);
    assert Run(App.AppCtx(false), ['u' as int, 'D' as int], events[4..]) == Run(App.AppCtx(false), ['u' as int, 'D' as int, 'c' as int], events[5..]);
  }
}
