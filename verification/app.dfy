/** The two top-level state machines of the application. */
module App {

  datatype AppState = MainMenu | Battle | AbilityChoose

  datatype InitState = BeforeAbilities | AfterAbilities

  /** Both machines start in their first variant. */
  const DefaultAppState: AppState := MainMenu
  const DefaultInitState: InitState := BeforeAbilities
}
