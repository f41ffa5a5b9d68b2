/**
 * The artist list of src/ui.rs: a cursor over the artist names that Down
 * and Up move with wrap-around, `q` to quit and `p` to play the selected
 * artist.
 */
module Ui {
  import opened Wrappers

  /** The key codes of a terminal key event; those the UI does not match are lumped together. */
  datatype KeyCode = Char(c: char) | Up | Down | Left | Right | Enter | Esc | Backspace | Tab | OtherKey

  datatype KeyModifier = Shift | Control | Alt | Super | Hyper | Meta

  datatype KeyEventKind = Press | Repeat | Release

  /** A terminal event. Only key events matter here, and of them only the key code. */
  datatype Event =
    | Key(code: KeyCode, modifiers: set<KeyModifier>, kind: KeyEventKind)
    | FocusGained
    | FocusLost
    | Mouse
    | Paste(text: string)
    | Resize(columns: nat, rows: nat)

  datatype Action = Quit | Play(artist: string)

  /** The value of a `UI`: the artist names and the cursor. */
  datatype State = State(artists: seq<string>, selected: nat)

  /** The cursor is on an artist whenever there is one. */
  predicate InRange(s: State)
  {
    s.artists == [] || s.selected < |s.artists|
  }

  /** The cursor after Down on `n > 0` artists. */
  function Next(selected: nat, n: nat): (r: nat)
    requires n > 0
    ensures r < n
    ensures selected < n ==> r == if selected == n - 1 then 0 else selected + 1
  {
    (selected + 1) % n
  }

  /** The cursor after Up on `n > 0` artists. */
  function Prev(selected: nat, n: nat): (r: nat)
    requires n > 0
    ensures r < n
    ensures selected < n ==> r == if selected == 0 then n - 1 else selected - 1
  {
    (selected + n - 1) % n
  }

  /** What `handle_input` does to a `UI` in state `s` on event `ev`: the new state and the action returned. */
  function Step(s: State, ev: Event): (r: (State, Option<Action>))
    requires InRange(s)
    ensures r.0.artists == s.artists && InRange(r.0)
    ensures r.1 == Some(Quit) <==> ev.Key? && ev.code == Char('q')
    ensures r.1.Some? && r.1.value.Play? <==> ev.Key? && ev.code == Char('p') && s.artists != []
    ensures r.1.Some? && r.1.value.Play? ==> s.artists != [] && r.1.value.artist == s.artists[s.selected]
    ensures r.0 != s ==> ev.Key? && (ev.code == Down || ev.code == Up) && |s.artists| > 1
  {
    match ev
    case Key(Char('q'), _, _) => (s, Some(Quit))
    case Key(Down, _, _) =>
      (if s.artists != [] then s.(selected := Next(s.selected, |s.artists|)) else s, None)
    case Key(Up, _, _) =>
      (if s.artists != [] then s.(selected := Prev(s.selected, |s.artists|)) else s, None)
    case Key(Char('p'), _, _) =>
      (s, if s.artists != [] then Some(Play(s.artists[s.selected])) else None)
    case _ => (s, None)
  }

  /** The state after the events `evs`, one `handle_input` each. */
  function Run(s: State, evs: seq<Event>): State
    requires InRange(s)
    decreases |evs|
  {
    if evs == [] then s
    else
      Run(Step(s, evs[0]).0, evs[1..])
  }

  class UI {
    var artists: seq<string>
    var selected: nat

    function Model(): State
      reads this
    {
      State(artists, selected)
    }

    ghost predicate Valid()
      reads this
    {
      InRange(Model())
    }

    /** `UI::new`: the given artists, the cursor on the first. */
    constructor (artists: seq<string>)
      ensures Valid()
      ensures this.artists == artists && selected == 0
    {
      this.artists := artists;
      selected := 0;
    }

    /** `handle_input`: moves the cursor in place and returns the action the event asks for. */
    method HandleInput(ev: Event) returns (action: Option<Action>)
      requires Valid()
      modifies this
      ensures Valid()
      ensures artists == old(artists)
      ensures (Model(), action) == Step(old(Model()), ev)
    {
      match ev {
        case Key(Char('q'), _, _) =>
          action := Some(Quit);
        case Key(Down, _, _) =>
          if artists != [] {
            selected := (selected + 1) % |artists|;
          }
          action := None;
        case Key(Up, _, _) =>
          if artists != [] {
            selected := (selected + |artists| - 1) % |artists|;
          }
          action := None;
        case Key(Char('p'), _, _) =>
          if artists != [] {
            action := Some(Play(artists[selected]));
          } else {
            action := None;
          }
        case _ =>
          action := None;
      }
    }
  }

  // -----------------------------------------------------------------------
  // Properties of the state machine
  // -----------------------------------------------------------------------

  /** Down on a nonempty list moves to the next artist, from the last back to the first, and returns nothing. */
  lemma StepDown(s: State, m: set<KeyModifier>, k: KeyEventKind)
    requires InRange(s) && s.artists != []
    ensures var n := |s.artists|;
      Step(s, Key(Down, m, k)) ==
      (State(s.artists, if s.selected == n - 1 then 0 else s.selected + 1), None)
  {
  }

  /** Up on a nonempty list moves to the previous artist, from the first to the last, and returns nothing. */
  lemma StepUp(s: State, m: set<KeyModifier>, k: KeyEventKind)
    requires InRange(s) && s.artists != []
    ensures var n := |s.artists|;
      Step(s, Key(Up, m, k)) ==
      (State(s.artists, if s.selected == 0 then n - 1 else s.selected - 1), None)
  {
  }

  /** Down then Up, and Up then Down, put the cursor back where it was. */
  lemma DownUpInverse(selected: nat, n: nat)
    requires selected < n
    ensures Prev(Next(selected, n), n) == selected
    ensures Next(Prev(selected, n), n) == selected
  {
  }

  /** On an empty list Up and Down change nothing, and `p` plays nothing. */
  lemma StepEmpty(s: State, m: set<KeyModifier>, k: KeyEventKind)
    requires s.artists == []
    ensures Step(s, Key(Down, m, k)) == (s, None)
    ensures Step(s, Key(Up, m, k)) == (s, None)
    ensures Step(s, Key(Char('p'), m, k)) == (s, None)
  {
  }

  /** `q` quits and `p` plays the selected artist; neither moves the cursor. */
  lemma StepQuitPlay(s: State, m: set<KeyModifier>, k: KeyEventKind)
    requires InRange(s)
    ensures Step(s, Key(Char('q'), m, k)) == (s, Some(Quit))
    ensures s.artists != [] ==> Step(s, Key(Char('p'), m, k)) == (s, Some(Play(s.artists[s.selected])))
  {
  }

  /** An event that is not `q`, `p`, Up or Down changes nothing and returns nothing. */
  lemma StepOther(s: State, ev: Event)
    requires InRange(s)
    requires ev.Key? ==> ev.code != Up && ev.code != Down && ev.code != Char('q') && ev.code != Char('p')
    ensures Step(s, ev) == (s, None)
  {
  }

  /** Any run of events keeps the artist list and the cursor in range. */
  lemma {:induction false} RunInRange(s: State, evs: seq<Event>)
    requires InRange(s)
    ensures Run(s, evs).artists == s.artists
    ensures InRange(Run(s, evs))
    decreases |evs|
  {
    if evs != [] {
      RunInRange(Step(s, evs[0]).0, evs[1..]);
    }
  }

  /** On an empty list the cursor never moves, whatever the events. */
  lemma {:induction false} RunEmpty(s: State, evs: seq<Event>)
    requires s.artists == []
    ensures Run(s, evs) == s
    decreases |evs|
  {
    if evs != [] {
      RunEmpty(Step(s, evs[0]).0, evs[1..]);
    }
  }

  lemma {:induction false} RunAppend(s: State, evs: seq<Event>, ev: Event)
    requires InRange(s)
    ensures InRange(Run(s, evs))
    ensures Run(s, evs + [ev]) == Run(Run(s, evs), [ev])
    decreases |evs|
  {
    RunInRange(s, evs);
    if evs != [] {
      assert (evs + [ev])[1..] == evs[1..] + [ev];
      RunAppend(Step(s, evs[0]).0, evs[1..], ev);
    }
  }

  /** `k` presses of Down on `n > 0` artists move the cursor `k` places forward, modulo `n`. */
  lemma {:induction false} RunDowns(s: State, k: nat, m: set<KeyModifier>, kind: KeyEventKind)
    requires InRange(s) && s.artists != []
    ensures Run(s, seq(k, _ => Key(Down, m, kind))).selected == (s.selected + k) % |s.artists|
  {
    var n := |s.artists|;
    var downs := seq(k, _ => Key(Down, m, kind));
    if k == 0 {
      assert downs == [];
    } else {
      var fewer := seq(k - 1, _ => Key(Down, m, kind));
      assert downs == fewer + [Key(Down, m, kind)];
      RunAppend(s, fewer, Key(Down, m, kind));
      RunDowns(s, k - 1, m, kind);
      RunInRange(s, fewer);
      var t := Run(s, fewer);
      assert t.selected == (s.selected + k - 1) % n;
      assert Run(s, downs) == Step(t, Key(Down, m, kind)).0;
      ModSucc(s.selected + k - 1, n);
    }
  }

  /** `n` presses of Down on `n` artists bring the cursor back to where it started. */
  lemma DownsCycle(s: State, m: set<KeyModifier>, kind: KeyEventKind)
    requires InRange(s) && s.artists != []
    ensures Run(s, seq(|s.artists|, _ => Key(Down, m, kind))) == s
  {
    var n := |s.artists|;
    RunDowns(s, n, m, kind);
    RunInRange(s, seq(n, _ => Key(Down, m, kind)));
    ModShift(s.selected, n);
  }

  /** `(x + 1) % n` is the successor of `x % n`, wrapping at `n`. */
  lemma ModSucc(x: nat, n: nat)
    requires n > 0
    ensures (x + 1) % n == Next(x % n, n)
  {
    var q, r := x / n, x % n;
    assert x == q * n + r;
    if r + 1 < n {
      ModUnique(x + 1, q, r + 1, n);
    } else {
      assert x + 1 == (q + 1) * n;
      ModUnique(x + 1, q + 1, 0, n);
    }
  }

  lemma ModShift(x: nat, n: nat)
    requires x < n
    ensures (x + n) % n == x
  {
    ModUnique(x + n, 1, x, n);
  }

  /** Euclidean remainders are unique. */
  lemma ModUnique(x: nat, q: int, r: int, n: nat)
    requires n > 0 && 0 <= r < n && x == q * n + r
    ensures x % n == r
  {
    var q', r' := x / n, x % n;
    assert x == q' * n + r';
    if q' < q {
      MulMono(q' + 1, q, n);
    } else if q < q' {
      MulMono(q + 1, q', n);
    }
  }

  lemma MulMono(a: int, b: int, n: nat)
    requires a <= b
    ensures a * n <= b * n
  {
    assert b * n == a * n + (b - a) * n;
  }

  /** The cursor a `UI` has after `UI::new` and then the events `evs`. */
  method Replay(artists: seq<string>, evs: seq<Event>) returns (selected: nat)
    ensures selected == Run(State(artists, 0), evs).selected
  {
    var ui := new UI(artists);
    var i := 0;
    while i < |evs|
      invariant 0 <= i <= |evs|
      invariant ui.Valid()
      invariant InRange(State(artists, 0))
      invariant Run(State(artists, 0), evs) == Run(ui.Model(), evs[i..])
    {
      var _ := ui.HandleInput(evs[i]);
      assert evs[i..][1..] == evs[i + 1..];
      i := i + 1;
    }
    selected := ui.selected;
  }
}
