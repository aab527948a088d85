/** What the game stores and moves, field by field: one message at a time, and at the end of a run. */
module GameRecords {
  import opened Bytes
  import opened Bank
  import opened Decimal
  import opened Game

  // ---------- answers ----------

  /** When each answer is given, in the order of the checks: five bytes, letters, the word of the day, six
      guesses ('6' is byte 54), the right word, and 100 tokens. */
  lemma AnswerConditions(w: World, st: State, m: Msg)
    requires CountsValid(st)
    ensures var r, day, mine := Answer(w, st, m), w.hash(m.day), w.hash(m.day + m.creator);
            var word := |m.word| == 5 && OnlyLetters(w, m.word);
            var submits := m.SubmitWordle? && word && day !in st.wordles;
            var funded := BalanceOf(st.balances, w.address(m.creator)) >= 100;
            var spent := mine in st.guesses && st.guesses[mine].count == [54];
            var guesses := m.SubmitGuess? && word && day in st.wordles && !spent;
            var right := day in st.wordles && st.wordles[day].word == w.hash(m.word);
            var covered := BalanceOf(st.balances, w.moduleAccount) >= 100;
            && (r == NotFiveBytes <==> |m.word| != 5)
            && (r == NotLetters <==> |m.word| == 5 && !OnlyLetters(w, m.word))
            && (r == AlreadySubmitted <==> m.SubmitWordle? && word && day in st.wordles)
            && (r == NoWordle <==> m.SubmitGuess? && word && day !in st.wordles)
            && (r == OutOfGuesses <==> m.SubmitGuess? && word && day in st.wordles && spent)
            && (r == WordleSet <==> submits && funded)
            && (r == Wrong <==> guesses && !right)
            && (r == Correct <==> guesses && right && covered)
            && (r == CannotPay <==> (submits && !funded) || (guesses && right && !covered))
  {
    hide OnlyLetters, Atoi, Itoa;
    CountMeaning(st, GuessIndex(w, m));
    assert Itoa(6) == [54] by { ItoaDigits(0, 6); }
  }

  // ---------- records ----------

  /** A message that fails changes nothing. An accepted word is stored, by its hash, under the hash of its day,
      with its submitter. An accepted guess replaces the guess of that day and creator, with the next count. No
      other record changes. */
  lemma RecordsStored(w: World, st: State, m: Msg)
    requires CountsValid(st)
    ensures var r, st', day, mine := Answer(w, st, m), After(w, st, m), w.hash(m.day), w.hash(m.day + m.creator);
            && (!r.WordleSet? && !r.Wrong? && !r.Correct? ==> st' == st)
            && (r.WordleSet? ==>
                  && st'.guesses == st.guesses && st'.wordles.Keys == st.wordles.Keys + {day}
                  && st'.wordles[day].index == day && st'.wordles[day].word == w.hash(m.word)
                  && st'.wordles[day].submitter == m.creator
                  && forall i :: i in st.wordles && i != day ==> st'.wordles[i] == st.wordles[i])
            && (r.Wrong? || r.Correct? ==>
                  && st'.wordles == st.wordles && st'.guesses.Keys == st.guesses.Keys + {mine}
                  && st'.guesses[mine].index == mine && st'.guesses[mine].submitter == m.creator
                  && st'.guesses[mine].word == w.hash(m.word)
                  && st'.guesses[mine].count == Itoa(CountAt(st, mine) + 1)
                  && forall i :: i in st.guesses && i != mine ==> st'.guesses[i] == st.guesses[i])
  {
    hide OnlyLetters, Atoi, Itoa, CountsValid, CountAt;
    if m.SubmitGuess? && Ok(Answer(w, st, m)) {
      NextMeaning(w, st, m);
    }
  }

  /** A word that was accepted stands at the end of any run as it was submitted. */
  lemma {:induction false} WordleStored(w: World, st: State, msgs: seq<Msg>, i: nat)
    requires i < |msgs| && Answer(w, AfterAll(w, st, msgs[..i]), msgs[i]) == WordleSet
    ensures var m, end := msgs[i], AfterAll(w, st, msgs);
            && w.hash(m.day) in end.wordles
            && end.wordles[w.hash(m.day)].index == w.hash(m.day) && end.wordles[w.hash(m.day)].submitter == m.creator
            && end.wordles[w.hash(m.day)].word == w.hash(m.word)
    decreases |msgs|
  {
    hide Itoa, Atoi, OnlyLetters;
    var n := |msgs| - 1;
    if i < n {
      assert msgs[..n][..i] == msgs[..i];
      WordleStored(w, st, msgs[..n], i);
    }
  }

  /** Message i is a guess of that day and creator that is accepted. */
  predicate AcceptedGuess(w: World, st: State, msgs: seq<Msg>, i: nat, day: Bytes, creator: Bytes)
    requires i < |msgs|
  {
    GuessesBy(day, creator)(msgs[i], Answer(w, AfterAll(w, st, msgs[..i]), msgs[i]))
  }

  /** At the end of any run the record of a day and creator is that of their last accepted guess. */
  lemma {:induction false} LastGuessStored(w: World, st: State, msgs: seq<Msg>, day: Bytes, creator: Bytes, i: nat)
    requires HashInjective(w) && CountsValid(st) && Dated(msgs) && |day| == DAY_LENGTH && i < |msgs|
    requires AcceptedGuess(w, st, msgs, i, day, creator)
    requires forall j :: i < j < |msgs| ==> !AcceptedGuess(w, st, msgs, j, day, creator)
    ensures var end, mine := AfterAll(w, st, msgs), w.hash(day + creator);
            && mine in end.guesses && end.guesses[mine].index == mine
            && end.guesses[mine].submitter == creator && end.guesses[mine].word == w.hash(msgs[i].word)
            && end.guesses[mine].count == Itoa(CountAt(st, mine) + Tally(w, st, msgs, GuessesBy(day, creator)))
    decreases |msgs|
  {
    hide After, Answer, Itoa, Atoi, CountAt, CountsValid;
    var n, mine := |msgs| - 1, w.hash(day + creator);
    var init := msgs[..n];
    var mid := AfterAll(w, st, init);
    SixGuesses(w, st, init, day, creator);
    RecordsStored(w, mid, msgs[n]);
    SameIndex(w, msgs[n], day, creator);
    if i < n {
      assert init[..i] == msgs[..i];
      forall j | i < j < n
        ensures !AcceptedGuess(w, st, init, j, day, creator)
      {
        assert init[..j] == msgs[..j] && !AcceptedGuess(w, st, msgs, j, day, creator);
      }
      LastGuessStored(w, st, init, day, creator, i);
      assert !AcceptedGuess(w, st, msgs, n, day, creator);
      OnlyMine(w, mid, msgs[n]);
    }
  }

  /** Only a guess that is accepted touches the guesses. */
  lemma OnlyMine(w: World, st: State, m: Msg)
    ensures Answer(w, st, m).Wrong? || Answer(w, st, m).Correct? ==> m.SubmitGuess?
    ensures Answer(w, st, m).WordleSet? ==> m.SubmitWordle?
  {
  }

  // ---------- money ----------

  /** An accepted word moves 100 tokens from its creator to the module account, a right guess 100 back to its
      creator, and no other message moves any. */
  lemma MoneyMoves(w: World, st: State, m: Msg)
    ensures var r, b, b' := Answer(w, st, m), st.balances, After(w, st, m).balances;
            var creator, escrow := w.address(m.creator), w.moduleAccount;
            && (r.WordleSet? && creator != escrow ==>
                  && BalanceOf(b', creator) == BalanceOf(b, creator) - 100
                  && BalanceOf(b', escrow) == BalanceOf(b, escrow) + 100)
            && (r.Correct? && creator != escrow ==>
                  && BalanceOf(b', creator) == BalanceOf(b, creator) + 100
                  && BalanceOf(b', escrow) == BalanceOf(b, escrow) - 100)
            && (r.WordleSet? || r.Correct? ==>
                  (creator == escrow ==> BalanceOf(b', creator) == BalanceOf(b, creator))
                  && forall a :: a != creator && a != escrow ==> BalanceOf(b', a) == BalanceOf(b, a))
            && (!r.WordleSet? && !r.Correct? ==> b' == b)
  {
    hide OnlyLetters, Atoi, Itoa, NextCount;
    match Answer(w, st, m)
    case WordleSet => MovedConserves(st.balances, w.address(m.creator), w.moduleAccount, REWARD);
    case Correct => MovedConserves(st.balances, w.moduleAccount, w.address(m.creator), REWARD);
    case _ =>
  }
}
