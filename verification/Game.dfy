/** The two messages of the game: submitting the word of the day and guessing it. */
module Game {
  import opened Bytes
  import opened Bank
  import opened Decimal
  import opened Runes

  datatype Wordle = Wordle(index: Bytes, word: Bytes, submitter: Bytes)
  datatype Guess = Guess(index: Bytes, submitter: Bytes, word: Bytes, count: Bytes)

  /** What the chain's libraries supply: SHA-256 in hex, the letters of Unicode beyond Latin-1, addresses
      from bech32, and the module's own account. */
  datatype World = World(hash: Bytes -> Bytes, beyondLatin1: nat -> bool,
                         address: Bytes -> Address, moduleAccount: Address)

  ghost predicate HashInjective(w: World) {
    forall a, b :: w.hash(a) == w.hash(b) ==> a == b
  }

  const REWARD := 100
  const DAY_LENGTH := 10   // "2006-01-02"

  datatype State = State(wordles: map<Bytes, Wordle>, guesses: map<Bytes, Guess>, balances: Balances)

  datatype Msg =
    | SubmitWordle(day: Bytes, creator: Bytes, word: Bytes)
    | SubmitGuess(day: Bytes, creator: Bytes, word: Bytes)

  datatype Reply =
    | WordleSet | Wrong | Correct                                                          // no error
    | NotFiveBytes | NotLetters | AlreadySubmitted | NoWordle | OutOfGuesses | BadCount | CannotPay

  predicate Ok(r: Reply) {
    r.WordleSet? || r.Wrong? || r.Correct?
  }

  // ---------- what each message answers and does ----------

  predicate OnlyLetters(w: World, word: Bytes) {
    OnlyLettersFrom(w.beyondLatin1, word, 0)
  }

  function GuessIndex(w: World, m: Msg): Bytes {
    w.hash(m.day + m.creator)
  }

  /** The count the next guess will carry, or that the stored count does not parse. */
  function NextCount(w: World, st: State, m: Msg): Parsed {
    if GuessIndex(w, m) !in st.guesses then Number(1)
    else
      match Atoi(st.guesses[GuessIndex(w, m)].count)
      case NotANumber => NotANumber
      case Number(n) => Number(ToInt64(n + 1))
  }

  function Answer(w: World, st: State, m: Msg): Reply {
    if |m.word| != 5 then NotFiveBytes
    else if !OnlyLetters(w, m.word) then NotLetters
    else if m.SubmitWordle? then
      if w.hash(m.day) in st.wordles then AlreadySubmitted
      else if BalanceOf(st.balances, w.address(m.creator)) < REWARD then CannotPay
      else WordleSet
    else if w.hash(m.day) !in st.wordles then NoWordle
    else if GuessIndex(w, m) in st.guesses && st.guesses[GuessIndex(w, m)].count == Itoa(6) then OutOfGuesses
    else if NextCount(w, st, m).NotANumber? then BadCount
    else if st.wordles[w.hash(m.day)].word != w.hash(m.word) then Wrong
    else if BalanceOf(st.balances, w.moduleAccount) < REWARD then CannotPay
    else Correct
  }

  /** The state after a message; one that fails changes nothing. */
  function After(w: World, st: State, m: Msg): State {
    if !Ok(Answer(w, st, m)) then st
    else if m.SubmitWordle? then
      State(st.wordles[w.hash(m.day) := Wordle(w.hash(m.day), w.hash(m.word), m.creator)], st.guesses,
            Moved(st.balances, w.address(m.creator), w.moduleAccount, REWARD))
    else
      var i := GuessIndex(w, m);
      State(st.wordles,
            st.guesses[i := Guess(i, m.creator, w.hash(m.word), Itoa(NextCount(w, st, m).value))],
            if Answer(w, st, m).Correct? then Moved(st.balances, w.moduleAccount, w.address(m.creator), REWARD)
            else st.balances)
  }

  // ---------- the message server ----------

  class MsgServer {
    const world: World
    var wordles: map<Bytes, Wordle>
    var guesses: map<Bytes, Guess>
    var balances: Balances

    constructor (w: World, st: State)
      ensures world == w && Contents() == st
    {
      world := w;
      wordles, guesses, balances := st.wordles, st.guesses, st.balances;
    }

    ghost function Contents(): State
      reads this
    {
      State(wordles, guesses, balances)
    }

    /** The range loop over the runes of a word. */
    method IsLetter(word: Bytes) returns (ok: bool)
      ensures ok <==> OnlyLetters(world, word)
    {
      hide DecodeRune, Letter;
      var i := 0;
      while i < |word|
        invariant 0 <= i <= |word|
        invariant OnlyLetters(world, word) <==> OnlyLettersFrom(world.beyondLatin1, word, i)
        decreases |word| - i
      {
        var r := DecodeRune(word, i);
        OneRune(world.beyondLatin1, word, i);
        if !Letter(world.beyondLatin1, r.value) { return false; }
        i := i + r.width;
      }
      ok := true;
    }

    /** SendCoins between two accounts: refused when the sender has too little. */
    method Send(from: Address, to: Address, amount: nat) returns (ok: bool)
      modifies this
      ensures ok <==> amount <= BalanceOf(old(balances), from)
      ensures wordles == old(wordles) && guesses == old(guesses)
      ensures balances == if ok then Moved(old(balances), from, to, amount) else old(balances)
    {
      ok := BalanceOf(balances, from) >= amount;
      if ok { balances := Moved(balances, from, to, amount); }
    }

    /** The body of SubmitWordle. On an error the store may be written to already. */
    method RunSubmitWordle(m: Msg) returns (r: Reply)
      requires m.SubmitWordle?
      modifies this
      ensures r == Answer(world, old(Contents()), m)
      ensures Ok(r) ==> Contents() == After(world, old(Contents()), m)
    {
      if |m.word| != 5 { return NotFiveBytes; }
      var letters := IsLetter(m.word);
      if !letters { return NotLetters; }
      var index := world.hash(m.day);
      var wordle := Wordle(index, world.hash(m.word), m.creator);
      if index in wordles { return AlreadySubmitted; }
      wordles := wordles[index := wordle];
      var paid := Send(world.address(m.creator), world.moduleAccount, REWARD);
      if !paid { return CannotPay; }
      r := WordleSet;
    }

    /** The body of SubmitGuess. */
    method RunSubmitGuess(m: Msg) returns (r: Reply)
      requires m.SubmitGuess?
      modifies this
      ensures r == Answer(world, old(Contents()), m)
      ensures Ok(r) ==> Contents() == After(world, old(Contents()), m)
    {
      assert ToInt64(0 + 1) == 1;
      hide Itoa, Atoi, OnlyLetters, Moved, ToInt64, After;
      if |m.word| != 5 { return NotFiveBytes; }
      var letters := IsLetter(m.word);
      if !letters { return NotLetters; }
      if world.hash(m.day) !in wordles { return NoWordle; }
      var wordle := wordles[world.hash(m.day)];
      var index, solution := world.hash(m.day + m.creator), world.hash(m.word);
      var count: int64 := 0;
      if index in guesses {
        if guesses[index].count == Itoa(6) { return OutOfGuesses; }
        var current := Atoi(guesses[index].count);
        if current.NotANumber? { return BadCount; }
        count := current.value;
      }
      count := ToInt64(count + 1);
      var guess := Guess(index, m.creator, solution, Itoa(count));
      ghost var was := guesses;
      guesses := guesses - {index};
      guesses := guesses[index := guess];
      assert guesses == was[index := guess];
      AfterGuess(world, old(Contents()), m);
      if wordle.word != solution { return Wrong; }
      var paid := Send(world.moduleAccount, world.address(m.creator), REWARD);
      if !paid { return CannotPay; }
      r := Correct;
    }

    /** Delivery of a message as a transaction: an error or a panic takes every write back. */
    method Deliver(m: Msg) returns (r: Reply)
      modifies this
      ensures r == Answer(world, old(Contents()), m)
      ensures Contents() == After(world, old(Contents()), m)
    {
      var w, g, b := wordles, guesses, balances;
      if m.SubmitWordle? {
        r := RunSubmitWordle(m);
      } else {
        r := RunSubmitGuess(m);
      }
      if !Ok(r) {
        wordles, guesses, balances := w, g, b;
      }
    }
  }

  lemma AfterGuess(w: World, st: State, m: Msg)
    requires m.SubmitGuess?
    ensures Ok(Answer(w, st, m)) ==>
              var i, n := GuessIndex(w, m), NextCount(w, st, m).value;
              && After(w, st, m).wordles == st.wordles
              && After(w, st, m).guesses == st.guesses[i := Guess(i, m.creator, w.hash(m.word), Itoa(n))]
              && After(w, st, m).balances == if Answer(w, st, m) == Wrong then st.balances
                                             else Moved(st.balances, w.moduleAccount, w.address(m.creator), REWARD)
  {
  }

  // ---------- "a 5 letter word" ----------

  /** A word that is accepted has five bytes and two to five letters. It has five letters exactly when no
      byte of it is above 0x7F, and these are then letters of the English alphabet. */
  lemma FiveLettersIffAscii(w: World, st: State, m: Msg)
    requires Ok(Answer(w, st, m))
    ensures 2 <= |RunesFrom(m.word, 0)| <= 5
    ensures |RunesFrom(m.word, 0)| == 5 <==> IsAscii(m.word)
    ensures IsAscii(m.word) ==> forall k :: 0 <= k < 5 ==> AsciiLetter(m.word[k])
  {
    LettersAndBytes(w.beyondLatin1, m.word, 0);
    if IsAscii(m.word) {
      AsciiWords(w.beyondLatin1, m.word, 0);
    }
  }

  /** And three letters are enough: an e with an acute accent, twice, and an a. */
  lemma ThreeLettersAccepted(w: World, st: State, day: Bytes, creator: Bytes)
    requires w.hash(day) !in st.wordles && BalanceOf(st.balances, w.address(creator)) >= REWARD
    ensures var word: Bytes := [0xC3, 0xA9, 0xC3, 0xA9, 0x61];
            RunesFrom(word, 0) == [0xE9, 0xE9, 0x61] && Answer(w, st, SubmitWordle(day, creator, word)) == WordleSet
  {
    var word: Bytes := [0xC3, 0xA9, 0xC3, 0xA9, 0x61];
    assert DecodeRune(word, 0) == Rune(0xE9, 2) && DecodeRune(word, 2) == Rune(0xE9, 2) by { AcuteE(word); }
    hide DecodeRune;
    assert RunesFrom(word, 4) == [0x61];
    assert RunesFrom(word, 2) == [0xE9, 0x61];
    assert RunesFrom(word, 0) == [0xE9, 0xE9, 0x61];
  }

  lemma AcuteE(word: Bytes)
    requires word == [0xC3, 0xA9, 0xC3, 0xA9, 0x61]
    ensures DecodeRune(word, 0) == Rune(0xE9, 2) && DecodeRune(word, 2) == Rune(0xE9, 2)
  {
    RuneReadBack([], 0xE9, word[2..]);
    RuneReadBack(word[..2], 0xE9, word[4..]);
    assert Utf8(0xE9) == [0xC3, 0xA9];
    assert word == [] + Utf8(0xE9) + word[2..] == word[..2] + Utf8(0xE9) + word[4..];
  }

  // ---------- runs ----------

  function AfterAll(w: World, st: State, msgs: seq<Msg>): State {
    if msgs == [] then st else After(w, AfterAll(w, st, msgs[..|msgs| - 1]), msgs[|msgs| - 1])
  }

  /** How many messages of a run were answered as `want` says. */
  function Tally(w: World, st: State, msgs: seq<Msg>, want: (Msg, Reply) -> bool): nat {
    if msgs == [] then 0
    else
      var n := |msgs| - 1;
      Tally(w, st, msgs[..n], want) + if want(msgs[n], Answer(w, AfterAll(w, st, msgs[..n]), msgs[n])) then 1 else 0
  }

  /** Escrows and payouts; a message of the module account itself would move nothing. */
  function Escrows(w: World): (Msg, Reply) -> bool {
    (m: Msg, r: Reply) => r.WordleSet? && w.address(m.creator) != w.moduleAccount
  }

  function Payouts(w: World): (Msg, Reply) -> bool {
    (m: Msg, r: Reply) => r.Correct? && w.address(m.creator) != w.moduleAccount
  }

  lemma MessageMoney(w: World, st: State, m: Msg)
    ensures var st', r := After(w, st, m), Answer(w, st, m);
            && Total(st'.balances) == Total(st.balances)
            && BalanceOf(st'.balances, w.moduleAccount)
               == BalanceOf(st.balances, w.moduleAccount)
                  + (if Escrows(w)(m, r) then REWARD else 0) - (if Payouts(w)(m, r) then REWARD else 0)
  {
    match Answer(w, st, m)
    case WordleSet => MovedConserves(st.balances, w.address(m.creator), w.moduleAccount, REWARD);
    case Correct => MovedConserves(st.balances, w.moduleAccount, w.address(m.creator), REWARD);
    case _ =>
  }

  /** Escrow solvency: over any run tokens are conserved, the module account holds its start plus 100 for
      each word escrowed minus 100 for each reward paid, and so rewards never exceed escrows and start. */
  lemma {:induction false} Solvency(w: World, st: State, msgs: seq<Msg>)
    ensures var st' := AfterAll(w, st, msgs);
            var start, paidIn, paidOut := BalanceOf(st.balances, w.moduleAccount),
                                          REWARD * Tally(w, st, msgs, Escrows(w)),
                                          REWARD * Tally(w, st, msgs, Payouts(w));
            && Total(st'.balances) == Total(st.balances)
            && BalanceOf(st'.balances, w.moduleAccount) == start + paidIn - paidOut
            && paidOut <= start + paidIn
    decreases |msgs|
  {
    if msgs != [] {
      var n := |msgs| - 1;
      Solvency(w, st, msgs[..n]);
      MessageMoney(w, AfterAll(w, st, msgs[..n]), msgs[n]);
    }
  }

  /** Once the word of a day is set, no later message changes it. */
  lemma {:induction false} WordStays(w: World, st: State, msgs: seq<Msg>, index: Bytes)
    requires index in st.wordles
    ensures index in AfterAll(w, st, msgs).wordles && AfterAll(w, st, msgs).wordles[index] == st.wordles[index]
    decreases |msgs|
  {
    if msgs != [] {
      WordStays(w, st, msgs[..|msgs| - 1], index);
    }
  }

  /** A guess is judged by the word that was set for its day, however many messages lie between: an
      accepted one is correct exactly when it is that word. */
  lemma {:induction false} GuessIsJudged(w: World, st: State, submission: Msg, msgs: seq<Msg>, guess: Msg)
    requires HashInjective(w)
    requires submission.SubmitWordle? && Ok(Answer(w, st, submission))
    requires guess.SubmitGuess? && guess.day == submission.day
    ensures var r := Answer(w, AfterAll(w, After(w, st, submission), msgs), guess);
            && r != NoWordle
            && (Ok(r) ==> (r.Correct? <==> guess.word == submission.word))
            && (r.CannotPay? ==> guess.word == submission.word)
  {
    WordStays(w, After(w, st, submission), msgs, w.hash(submission.day));
  }

  // ---------- six guesses ----------

  /** The stored counts are decimals from 1 to 6. */
  ghost predicate CountsValid(st: State) {
    forall i :: i in st.guesses ==> exists n: int64 :: 1 <= n <= 6 && st.guesses[i].count == Itoa(n)
  }

  /** The number a stored count stands for; 0 when there is none. */
  function CountAt(st: State, index: Bytes): int {
    if index !in st.guesses then 0
    else match Atoi(st.guesses[index].count) case Number(n) => n case NotANumber => 0
  }

  lemma CountMeaning(st: State, index: Bytes)
    requires CountsValid(st)
    ensures 0 <= CountAt(st, index) <= 6
    ensures index !in st.guesses ==> CountAt(st, index) == 0
    ensures index in st.guesses ==>
              && CountAt(st, index) >= 1 && st.guesses[index].count == Itoa(CountAt(st, index))
              && (st.guesses[index].count == Itoa(6) <==> CountAt(st, index) == 6)
              && Atoi(st.guesses[index].count) == Number(CountAt(st, index))
  {
    if index in st.guesses {
      var n: int64 :| 1 <= n <= 6 && st.guesses[index].count == Itoa(n);
      ItoaReadBack(n);
      ItoaReadBack(6);
    }
  }

  /** Messages are dated with days of the fixed length that the format gives. */
  predicate Dated(msgs: seq<Msg>) {
    forall i :: 0 <= i < |msgs| ==> |msgs[i].day| == DAY_LENGTH
  }

  function GuessesBy(day: Bytes, creator: Bytes): (Msg, Reply) -> bool {
    (m: Msg, r: Reply) => m.SubmitGuess? && m.day == day && m.creator == creator && (r.Wrong? || r.Correct?)
  }

  lemma MessageCounts(w: World, st: State, m: Msg, day: Bytes, creator: Bytes)
    requires HashInjective(w) && CountsValid(st) && |m.day| == |day| == DAY_LENGTH
    ensures CountsValid(After(w, st, m))
    ensures var i := w.hash(day + creator);
            CountAt(After(w, st, m), i)
            == CountAt(st, i) + if GuessesBy(day, creator)(m, Answer(w, st, m)) then 1 else 0
  {
    hide Itoa, Atoi;
    var st', i := After(w, st, m), w.hash(day + creator);
    if m.SubmitGuess? && Ok(Answer(w, st, m)) {
      var j := GuessIndex(w, m);
      CountMeaning(st, j);
      var n: int64 := CountAt(st, j) + 1;
      NextMeaning(w, st, m);
      assert st' == State(st.wordles, st.guesses[j := Guess(j, m.creator, w.hash(m.word), Itoa(n))], st'.balances);
      hide After, Answer;
      CountStored(st, st', j, Guess(j, m.creator, w.hash(m.word), Itoa(n)), n);
      SameIndex(w, m, day, creator);
    }
  }

  lemma NextMeaning(w: World, st: State, m: Msg)
    requires CountsValid(st) && m.SubmitGuess? && Ok(Answer(w, st, m))
    ensures CountAt(st, GuessIndex(w, m)) <= 5
    ensures NextCount(w, st, m) == Number(CountAt(st, GuessIndex(w, m)) + 1)
  {
    hide Itoa, Atoi;
    CountMeaning(st, GuessIndex(w, m));
  }

  lemma CountStored(st: State, st': State, j: Bytes, g: Guess, n: int64)
    requires CountsValid(st) && 1 <= n <= 6 && g.count == Itoa(n)
    requires st' == State(st.wordles, st.guesses[j := g], st'.balances)
    ensures CountsValid(st') && CountAt(st', j) == n && forall i :: i != j ==> CountAt(st', i) == CountAt(st, i)
  {
    ItoaReadBack(n);
    hide Itoa, Atoi;
    forall k | k in st'.guesses
      ensures exists c: int64 :: 1 <= c <= 6 && st'.guesses[k].count == Itoa(c)
    {
      if k == j {
        assert 1 <= n <= 6 && st'.guesses[k].count == Itoa(n);
      } else {
        assert k in st.guesses;
      }
    }
  }

  /** Day and creator are recovered from the index of their guesses. */
  lemma SameIndex(w: World, m: Msg, day: Bytes, creator: Bytes)
    requires HashInjective(w) && |m.day| == |day|
    ensures GuessIndex(w, m) == w.hash(day + creator) <==> m.day == day && m.creator == creator
  {
    if GuessIndex(w, m) == w.hash(day + creator) {
      var a, b := m.day + m.creator, day + creator;
      assert a == b;
      assert m.day == a[..|day|] && day == b[..|day|];
      assert m.creator == a[|day|..] && creator == b[|day|..];
    }
  }

  /** The stored count is the decimal of the guesses accepted for that day and creator, and there are
      never more than six. */
  lemma {:induction false} SixGuesses(w: World, st: State, msgs: seq<Msg>, day: Bytes, creator: Bytes)
    requires HashInjective(w) && CountsValid(st) && Dated(msgs) && |day| == DAY_LENGTH
    ensures CountsValid(AfterAll(w, st, msgs))
    ensures var i := w.hash(day + creator);
            var n := CountAt(st, i) + Tally(w, st, msgs, GuessesBy(day, creator));
            && n <= 6 && CountAt(AfterAll(w, st, msgs), i) == n
            && (n > 0 ==> i in AfterAll(w, st, msgs).guesses && AfterAll(w, st, msgs).guesses[i].count == Itoa(n))
    decreases |msgs|
  {
    hide After, Answer, Itoa, Atoi, CountAt, CountsValid;
    if msgs != [] {
      var n := |msgs| - 1;
      SixGuesses(w, st, msgs[..n], day, creator);
      MessageCounts(w, AfterAll(w, st, msgs[..n]), msgs[n], day, creator);
    }
    CountMeaning(AfterAll(w, st, msgs), w.hash(day + creator));
  }

  // ---------- payouts ----------

  function PaidTo(day: Bytes, creator: Bytes): (Msg, Reply) -> bool {
    (m: Msg, r: Reply) => m.SubmitGuess? && m.day == day && m.creator == creator && r.Correct?
  }

  lemma {:induction false} TallyGrows(w: World, st: State, msgs: seq<Msg>, few: (Msg, Reply) -> bool,
                                      many: (Msg, Reply) -> bool)
    requires forall m, r :: few(m, r) ==> many(m, r)
    ensures Tally(w, st, msgs, few) <= Tally(w, st, msgs, many)
    decreases |msgs|
  {
    if msgs != [] {
      TallyGrows(w, st, msgs[..|msgs| - 1], few, many);
    }
  }

  /** A right guess may be repeated: a creator is paid for each, six times a day at the most. */
  lemma SixPayouts(w: World, st: State, msgs: seq<Msg>, day: Bytes, creator: Bytes)
    requires HashInjective(w) && CountsValid(st) && Dated(msgs) && |day| == DAY_LENGTH
    ensures CountAt(st, w.hash(day + creator)) + Tally(w, st, msgs, PaidTo(day, creator)) <= 6
  {
    SixGuesses(w, st, msgs, day, creator);
    TallyGrows(w, st, msgs, PaidTo(day, creator), GuessesBy(day, creator));
  }

  function Again(m: Msg, n: nat): seq<Msg> {
    seq(n, _ => m)
  }

  /** And six payouts are reached: the same right guess, six times over, is paid six times. */
  lemma {:induction false} SixPayoutsReached(w: World, st: State, m: Msg, n: nat)
    requires HashInjective(w) && CountsValid(st) && m.SubmitGuess? && |m.day| == DAY_LENGTH
    requires |m.word| == 5 && OnlyLetters(w, m.word)
    requires w.hash(m.day) in st.wordles && st.wordles[w.hash(m.day)].word == w.hash(m.word)
    requires GuessIndex(w, m) !in st.guesses && n <= 6
    requires w.address(m.creator) != w.moduleAccount && BalanceOf(st.balances, w.moduleAccount) >= 6 * REWARD
    ensures var st' := AfterAll(w, st, Again(m, n));
            && Tally(w, st, Again(m, n), PaidTo(m.day, m.creator)) == n
            && CountsValid(st') && CountAt(st', GuessIndex(w, m)) == n && st'.wordles == st.wordles
            && BalanceOf(st'.balances, w.address(m.creator))
               == BalanceOf(st.balances, w.address(m.creator)) + n * REWARD
            && BalanceOf(st'.balances, w.moduleAccount) == BalanceOf(st.balances, w.moduleAccount) - n * REWARD
    decreases n
  {
    hide After, Answer, Itoa, Atoi, CountAt, CountsValid, OnlyLetters;
    if n > 0 {
      assert Again(m, n)[..n - 1] == Again(m, n - 1);
      SixPayoutsReached(w, st, m, n - 1);
      var mid := AfterAll(w, st, Again(m, n - 1));
      RightGuess(w, mid, m);
      MessageCounts(w, mid, m, m.day, m.creator);
    } else {
      NoCount(st, GuessIndex(w, m));
    }
  }

  lemma NoCount(st: State, index: Bytes)
    requires index !in st.guesses
    ensures CountAt(st, index) == 0
  {
  }

  lemma RightGuess(w: World, st: State, m: Msg)
    requires CountsValid(st) && m.SubmitGuess? && |m.word| == 5 && OnlyLetters(w, m.word)
    requires w.hash(m.day) in st.wordles && st.wordles[w.hash(m.day)].word == w.hash(m.word)
    requires CountAt(st, GuessIndex(w, m)) < 6 && BalanceOf(st.balances, w.moduleAccount) >= REWARD
    requires w.address(m.creator) != w.moduleAccount
    ensures Answer(w, st, m) == Correct
    ensures var st' := After(w, st, m);
            && st'.wordles == st.wordles
            && BalanceOf(st'.balances, w.address(m.creator)) == BalanceOf(st.balances, w.address(m.creator)) + REWARD
            && BalanceOf(st'.balances, w.moduleAccount) == BalanceOf(st.balances, w.moduleAccount) - REWARD
  {
    hide Itoa, Atoi;
    CountMeaning(st, GuessIndex(w, m));
    MovedConserves(st.balances, w.moduleAccount, w.address(m.creator), REWARD);
  }
}
