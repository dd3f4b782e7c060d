/** The two pieces of the main window's logic that are not widget wiring:
    the number-to-word mapping shown in the About box and the launch counter
    decremented when the window closes (src/main_window.cpp). */
module MainWindow {

  /** numberToWord: the English word for 1..10, and "?" for every other value. */
  function NumberToWord(n: int): (w: string)
    ensures 1 <= n <= 10 ==> w == ["one", "two", "three", "four", "five",
                                   "six", "seven", "eight", "nine", "ten"][n - 1]
    ensures !(1 <= n <= 10) ==> w == "?"
    ensures |w| > 0
  {
    match n
    case 1 => "one"
    case 2 => "two"
    case 3 => "three"
    case 4 => "four"
    case 5 => "five"
    case 6 => "six"
    case 7 => "seven"
    case 8 => "eight"
    case 9 => "nine"
    case 10 => "ten"
    case _ => "?"
  }

  /** Distinct counts from 1 to 10 are shown as distinct words, and none of
      them is the "?" used for every other count. */
  lemma NumberToWordInjective(n: int, m: int)
    requires 1 <= n <= 10 && 1 <= m <= 10
    ensures NumberToWord(n) != "?"
    ensures NumberToWord(n) == NumberToWord(m) ==> n == m
  {
  }

  /** The part of AppState that the main window touches: the counter shown,
      as a word, in the About box. */
  class AppState {
    var count: int

    constructor (count: int)
      ensures this.count == count
    {
      this.count := count;
    }
  }

  class MainWindow {
    const appState: AppState

    constructor (appState: AppState)
      ensures this.appState == appState
    {
      this.appState := appState;
    }

    /** closeEvent: the counter goes down by exactly one before the state is
        persisted (persisting is file I/O and is not modelled). */
    method CloseEvent()
      modifies appState
      ensures appState.count == old(appState.count) - 1
    {
      appState.count := appState.count - 1;
    }
  }
}
