/** The loading state: runs the base dispatcher every frame while the assets
    load, quits on a close request or the Escape key, and switches to the
    game state once loading completes. */
module HopperLoading {
  import opened Common
  import opened Dispatching
  import HopperBoundary

  /** The progress counter's verdict (`Completion`). */
  datatype Completion = Loading | Complete | Failed

  /** The keys the window reports (only Escape matters here). */
  datatype VirtualKeyCode = Escape | Space | Left | Right | OtherKey(code: nat)

  datatype ElementState = Pressed | Released

  /** A window event, reduced to what the loading state looks at. */
  datatype WindowEvent =
    | CloseRequested
    | KeyboardInput(virtualKeycode: Option<VirtualKeyCode>, state: ElementState)
    | OtherWindowEvent

  /** `HopperGameStateEvent`: the events a state of this game receives. */
  datatype HopperGameStateEvent =
    | Window(event: WindowEvent)
    | Ui
    | Input
    | Collision
    | Game(gameEvent: HopperBoundary.GameEvent)

  /** The game states a transition can switch to. */
  datatype GameStateKind = HopperGameState

  /** `Trans`: what the state machine does next. */
  datatype Trans = TransNone | Quit | Switch(next: GameStateKind)

  /** The window asked to close. */
  predicate IsCloseRequested(event: WindowEvent)
  {
    event.CloseRequested?
  }

  /** `key` was pressed. */
  predicate IsKeyDown(event: WindowEvent, key: VirtualKeyCode)
  {
    event.KeyboardInput? && event.virtualKeycode == Some(key) && event.state == Pressed
  }

  /** `HopperLoadingState::handle_event`. */
  function HandleEvent(event: HopperGameStateEvent): (t: Trans)
    // the only possible transition is to quit, and only on a window event
    ensures t == TransNone || t == Quit
    ensures t == Quit <==> event.Window? && (event.event.CloseRequested? || IsKeyDown(event.event, Escape))
  {
    if event.Window? && (IsCloseRequested(event.event) || IsKeyDown(event.event, Escape)) then Quit else TransNone
  }

  /** Releasing Escape, or pressing another key, does not quit. */
  lemma OnlyEscapePressQuits(key: Option<VirtualKeyCode>, state: ElementState)
    requires key != Some(Escape) || state == Released
    ensures HandleEvent(Window(KeyboardInput(key, state))) == TransNone
  {
  }

  /** The transition `update` returns for the progress counter's verdict. */
  function UpdateTransition(progress: Completion): (t: Trans)
    ensures t == Quit <==> progress == Failed
    ensures t == Switch(HopperGameState) <==> progress == Complete
    ensures t == TransNone <==> progress == Loading
  {
    match progress
    case Failed => Quit
    case Complete => Switch(HopperGameState)
    case Loading => TransNone
  }

  /** `HopperLoadingState::update`: runs the base dispatcher and no group,
      then decides from the progress counter. Returns the transition and the
      dispatchers that ran. */
  method Update(gameData: GameData, progress: Completion) returns (t: Trans, ran: seq<Dispatcher>)
    ensures ran == BaseList(gameData.baseDispatcher)
    ensures t == UpdateTransition(progress)
  {
    SelectedNoneIsEmpty(gameData.dispatchers, []);
    ran := gameData.Update([]);
    t := UpdateTransition(progress);
  }
}
