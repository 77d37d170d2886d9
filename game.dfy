/**
 * The puzzle component's state and its one-shot guess: the phase starts at
 * `Start`, a submitted guess is trimmed and compared exactly with the
 * answer, and a wrong guess also locks the page for a while.
 */
module Game {
  import opened Util
  import opened JsString
  import Hex
  import Chunking
  import Grid

  datatype Phase = Start | Win | Lose

  /** The coordinates the player has to type. */
  const CorrectAnswer := "18.5204,73.8567"
  /** What the `beforeunload` handler installed on a loss returns. */
  const LeavePrompt := "Are you sure you want to leave?"
  /** The delay of the timer that removes that handler again. */
  const LeaveGuardDelayMs := 10000

  /** The phase a submitted guess leads to: never back to `Start`. */
  function Judge(input: string): (p: Phase)
    ensures p != Start
  {
    if Trim(input) == CorrectAnswer then Win else Lose
  }

  /** A guess wins exactly when it is the answer, character for character, with nothing but whitespace around it. */
  lemma WinIffPaddedAnswer(input: string)
    ensures Judge(input) == Win <==>
      exists i, j :: 0 <= i <= j <= |input| && input[i..j] == CorrectAnswer
        && AllWhitespace(input[..i]) && AllWhitespace(input[j..])
  {
    TrimCharacterization(input, CorrectAnswer);
    if exists i, j :: 0 <= i <= j <= |input| && input[i..j] == CorrectAnswer
        && AllWhitespace(input[..i]) && AllWhitespace(input[j..]) {
      assert !IsWhitespace(CorrectAnswer[0]) && !IsWhitespace(CorrectAnswer[|CorrectAnswer| - 1]);
      assert IsTrimmingOf(input, CorrectAnswer);
    }
  }

  /** The answer with spaces on either side still wins: only the border is trimmed. */
  lemma PaddedAnswerWins()
    ensures Judge(" 18.5204,73.8567 ") == Win
  {
    assert " 18.5204,73.8567 " == " " + CorrectAnswer + " ";
    TrimPadded(" ", CorrectAnswer, " ");
  }

  /**
   * A pasted tab or no-break space around the answer is trimmed too. (A
   * single-line text field drops line breaks from its value, so those never
   * reach the check.)
   */
  lemma TabAndNoBreakSpaceTrimmed()
    ensures Judge("\t" + CorrectAnswer + "\U{00A0}") == Win
  {
    TrimPadded("\t", CorrectAnswer, "\U{00A0}");
  }

  /** Whitespace inside the guess is kept, so a space after the comma loses, and so does any other text. */
  lemma InnerSpaceLoses()
    ensures Judge("18.5204, 73.8567") == Lose
    ensures Judge("abc") == Lose
  {
    TrimPadded("", "18.5204, 73.8567", "");
    assert "" + "18.5204, 73.8567" + "" == "18.5204, 73.8567";
    TrimPadded("", "abc", "");
    assert "" + "abc" + "" == "abc";
  }

  /** The component's state. */
  class PuzzleGame {
    /** The text field's value. */
    var input: string
    var status: Phase
    /** The published grid of digest texts; empty until the digests resolve. */
    var hashMatrix: seq<seq<string>>
    var fullScreen: bool
    /** `window.onbeforeunload`: the message its handler returns, or None while it is null. */
    var onBeforeUnload: Option<string>
    /** The delay of the pending timer that sets `window.onbeforeunload` back to null, if one is scheduled. */
    var guardTimer: Option<nat>

    /**
     * Outside `Lose` nothing is locked. In `Lose` the page is fullscreen, and
     * the leave prompt is installed exactly while its ten-second clearing
     * timer is still pending.
     */
    ghost predicate Valid()
      reads this
    {
      && (status != Lose ==> !fullScreen && onBeforeUnload == None && guardTimer == None)
      && (status == Lose ==>
            && fullScreen
            && ((onBeforeUnload == Some(LeavePrompt) && guardTimer == Some(LeaveGuardDelayMs))
                || (onBeforeUnload == None && guardTimer == None)))
    }

    /** Mounting: empty field, phase `Start`, no grid yet, nothing locked. */
    constructor ()
      ensures Valid()
      ensures input == "" && status == Start && hashMatrix == []
      ensures !fullScreen && onBeforeUnload == None && guardTimer == None
    {
      input := "";
      status := Start;
      hashMatrix := [];
      fullScreen := false;
      onBeforeUnload := None;
      guardTimer := None;
    }

    /** The field's `onChange`. The field is rendered only in `Start`, so in any other phase nothing happens. */
    method ChangeInput(value: string)
      requires Valid()
      modifies this
      ensures Valid()
      ensures input == if old(status) == Start then value else old(input)
      ensures status == old(status) && hashMatrix == old(hashMatrix) && fullScreen == old(fullScreen)
      ensures onBeforeUnload == old(onBeforeUnload) && guardTimer == old(guardTimer)
    {
      if status == Start {
        input := value;
      }
    }

    /**
     * The form's `onSubmit`. The form exists only in `Start`, and the
     * required field blocks an empty submission, so `submitted` says whether
     * the handler ran at all; when it did not, nothing changes. When it ran,
     * the phase becomes the verdict on the trimmed guess; a loss also goes
     * fullscreen, installs the leave prompt and schedules its removal, a win
     * does none of that.
     */
    method Submit() returns (submitted: bool)
      requires Valid()
      modifies this
      ensures Valid()
      ensures submitted <==> old(status) == Start && old(input) != ""
      ensures !submitted ==> unchanged(this)
      ensures submitted ==> status == Judge(old(input))
      ensures submitted && status == Win ==> !fullScreen && onBeforeUnload == None && guardTimer == None
      ensures submitted && status == Lose ==>
        fullScreen && onBeforeUnload == Some(LeavePrompt) && guardTimer == Some(LeaveGuardDelayMs)
      ensures input == old(input) && hashMatrix == old(hashMatrix)
    {
      if status != Start || input == "" {
        return false;
      }
      submitted := true;
      if Trim(input) == CorrectAnswer {
        status := Win;
      } else {
        status := Lose;
        fullScreen := true;
        guardTimer := Some(LeaveGuardDelayMs);
        onBeforeUnload := Some(LeavePrompt);
      }
    }

    /** The clearing timer expires: `window.onbeforeunload = null`. Nothing else changes. */
    method GuardTimerFires()
      requires Valid()
      modifies this
      ensures Valid()
      ensures onBeforeUnload == None && guardTimer == None
      ensures input == old(input) && status == old(status) && hashMatrix == old(hashMatrix)
      ensures fullScreen == old(fullScreen)
    {
      if guardTimer.Some? {
        guardTimer := None;
        onBeforeUnload := None;
      }
    }

    /**
     * The digests resolve: the hex rows are published as the grid, in any
     * phase, and nothing else changes.
     */
    method ReceiveDigests(hashes: seq<seq<Hex.byte>>)
      requires Valid()
      modifies this
      ensures Valid()
      ensures hashMatrix == Chunking.Chunks(Grid.EncodeAll(hashes))
      ensures input == old(input) && status == old(status) && fullScreen == old(fullScreen)
      ensures onBeforeUnload == old(onBeforeUnload) && guardTimer == old(guardTimer)
    {
      var structured := Grid.BuildMatrix(hashes);
      hashMatrix := structured;
    }
  }

  /**
   * One try only: after a first non-empty guess, editing the field and
   * submitting again changes nothing. An empty first attempt is blocked, so
   * the second one is the one judged.
   */
  method OneGuessOnly(first: string, second: string) returns (final: Phase)
    ensures first != "" ==> final == Judge(first)
    ensures first == "" ==> final == if second == "" then Start else Judge(second)
  {
    var game := new PuzzleGame();
    game.ChangeInput(first);
    var _ := game.Submit();
    game.ChangeInput(second);
    var _ := game.Submit();
    final := game.status;
  }

  /**
   * A losing guess installs the leave prompt at once and it stays until the
   * clearing timer fires; a winning guess never installs it.
   */
  method LeaveGuardWindow(guess: string) returns (atVerdict: Option<string>, afterTimer: Option<string>)
    requires guess != ""
    ensures Judge(guess) == Lose ==> atVerdict == Some(LeavePrompt)
    ensures Judge(guess) == Win ==> atVerdict == None
    ensures afterTimer == None
  {
    var game := new PuzzleGame();
    game.ChangeInput(guess);
    var _ := game.Submit();
    atVerdict := game.onBeforeUnload;
    game.GuardTimerFires();
    afterTimer := game.onBeforeUnload;
  }
}
