/** The header's countdown: the once-a-second tick that lowers the store's
    timer, the `m:ss` clock text, and the warning colour of the last ten
    seconds. The one-second scheduling itself is not modelled: a tick is one
    call. */
module GameHeader {
  import opened Text
  import opened Store

  /** The timer after one tick: one second less, never below 0. */
  function TickTimer(timer: int): (next: int)
    ensures next >= 0
    ensures timer > 0 ==> next == timer - 1
    ensures timer <= 0 ==> next == 0
  {
    if timer - 1 < 0 then 0 else timer - 1
  }

  /** The timer after `n` ticks. */
  function Ticks(timer: int, n: nat): int {
    if n == 0 then timer else TickTimer(Ticks(timer, n - 1))
  }

  /** From a non-negative start, `n` ticks leave max(0, timer - n): the
      countdown stops at 0 and never goes below. */
  lemma {:induction false} TicksCountDown(timer: nat, n: nat)
    ensures timer >= n ==> Ticks(timer, n) == timer - n
    ensures timer < n ==> Ticks(timer, n) == 0
  {
    if n > 0 {
      TicksCountDown(timer, n - 1);
    }
  }

  /** One tick of the running header: only while the level is being played
      and is not paused does the timer move. */
  method Tick(game: MotionGame)
    modifies game`timer
    ensures game.isPlaying && !game.isPaused ==> game.timer == TickTimer(old(game.timer))
    ensures !(game.isPlaying && !game.isPaused) ==> game.timer == old(game.timer)
  {
    if !game.isPlaying || game.isPaused {
      return;
    }
    game.SetTimer(TickTimer(game.timer));
  }

  /** A number below 100 padded to two digits reads back as itself. */
  lemma PaddedTwoDigits(n: nat)
    requires n < 100
    ensures var s := PadStart(NatToString(n), 2, '0');
      |s| == 2 && AllDigits(s) && ParseNat(s) == n
  {
    var t := NatToString(n);
    ParseNatToString(n);
    var s := PadStart(t, 2, '0');
    if n < 10 {
      assert s == ['0'] + t;
      assert s[..1] == ['0'];
      assert ParseNat(['0']) == 10 * ParseNat([]) + 0;
    } else {
      assert |NatToString(n / 10)| == 1;
    }
  }

  /** formatTime of the header: whole minutes, a colon, and the seconds
      padded to two digits. For a non-negative time the clock shows the
      minutes, a colon and exactly two digits of seconds below 60, which
      together make up the time. */
  function FormatClock(seconds: int): (clock: string)
    ensures seconds >= 0 ==> exists mins: string, secs: string ::
      && AllDigits(mins) && AllDigits(secs) && |secs| == 2
      && clock == mins + ":" + secs
      && ParseNat(secs) < 60 && ParseNat(mins) * 60 + ParseNat(secs) == seconds
  {
    var mins := IntToString(seconds / 60);
    var secs := PadStart(IntToString(TruncRem(seconds, 60)), 2, '0');
    if seconds < 0 then mins + ":" + secs
    else
      assert |secs| == 2 && AllDigits(secs) && ParseNat(secs) == seconds % 60 by {
        PaddedTwoDigits(seconds % 60);
      }
      assert AllDigits(mins) && ParseNat(mins) * 60 + ParseNat(secs) == seconds;
      mins + ":" + secs
  }

  datatype TimerColor = Warning | Normal

  /** The clock turns to the warning colour in the last ten seconds. */
  function TimerColorOf(timer: int): (color: TimerColor)
    ensures color == Warning <==> timer <= 10
  {
    if timer <= 10 then Warning else Normal
  }

  /** Once shown, the warning colour stays through every further tick. */
  lemma {:induction false} WarningPersists(timer: int, n: nat)
    requires TimerColorOf(timer) == Warning
    ensures TimerColorOf(Ticks(timer, n)) == Warning
  {
    if n > 0 {
      WarningPersists(timer, n - 1);
    }
  }
}
