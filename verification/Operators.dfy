/** One operator's account: how deep they are in, and the window of nonces already spent. */
module Operators {
  import opened Outcomes
  import opened Numbers
  import opened Bits

  const NONCE_WINDOW: int := 256
  const WORD: int := 64
  const NONCE_WINDOW_WORDS: int := 4
  const MAX_OPEN_LOANS: int := 4

  type Words = w: seq<u64> | |w| == NONCE_WINDOW_WORDS witness [0, 0, 0, 0]

  /** Word `source` moved down by less than a word, the carry pulled in from the word above. */
  function ShiftedWord(words: Words, source: nat, bits: nat): u64
    requires source < NONCE_WINDOW_WORDS && bits < WORD
  {
    var value := ShiftRight(words[source], bits);
    if bits > 0 && source + 1 < NONCE_WINDOW_WORDS
    then Or64(value, ShiftLeft(words[source + 1], WORD - bits)) else value
  }

  function WordOrZero(words: Words, source: nat, bits: nat): u64
    requires bits < WORD
  {
    if source < NONCE_WINDOW_WORDS then ShiftedWord(words, source, bits) else 0
  }

  /** `shift_window_down`: the lowest `count` nonces dropped. */
  function Shifted(words: Words, count: u64): Words {
    if count >= NONCE_WINDOW then [0, 0, 0, 0] else
    var wholeWords, bits := count / WORD, count % WORD;
    [WordOrZero(words, wholeWords, bits), WordOrZero(words, wholeWords + 1, bits),
     WordOrZero(words, wholeWords + 2, bits), WordOrZero(words, wholeWords + 3, bits)]
  }

  predicate Marked(words: Words, i: nat)
    requires i < NONCE_WINDOW
  {
    Bit(words[i / WORD], i % WORD)
  }

  function Mark(words: Words, i: nat): Words
    requires i < NONCE_WINDOW
  {
    words[i / WORD := Or64(words[i / WORD], ShiftLeft(1, i % WORD))]
  }

  datatype NonceWindow = NonceWindow(floor: u64, words: Words) {
    /** The window dragged forward, if need be, to end on `nonce`. */
    function SlideTo(nonce: u64): NonceWindow
      requires nonce >= floor
    {
      if nonce - floor < NONCE_WINDOW then this else
      var slide := nonce - floor - (NONCE_WINDOW - 1);
      NonceWindow(floor + slide, Shifted(words, slide))
    }

    function Consume(nonce: u64): Result<NonceWindow> {
      if nonce < floor then Err(AttestationNonceTooOld) else
      var slid := SlideTo(nonce);
      var i := nonce - slid.floor;
      :- Require(!Marked(slid.words, i), AttestationNonceAlreadyUsed);
      Ok(slid.(words := Mark(slid.words, i)))
    }
  }

  const FRESH_WINDOW := NonceWindow(0, [0, 0, 0, 0])

  datatype OperatorState = OperatorState(totalDebt: u64, openLoans: u32, overdue: bool, window: NonceWindow)

  const FRESH_ACCOUNT := OperatorState(0, 0, false, FRESH_WINDOW)

  // ----- The bitmap -------------------------------------------------------------------------

  /** Whatever the shift, within a word, by whole words or across them, bit `i` of the result is
      bit `i + count` of the window, and what falls past the window's end is unset. */
  lemma ShiftedMarks(words: Words, count: u64, i: nat)
    requires i < NONCE_WINDOW
    ensures Marked(Shifted(words, count), i) <==> i + count < NONCE_WINDOW && Marked(words, i + count)
  {
    if count >= NONCE_WINDOW {
      BitOfZero(i % WORD);
    } else {
      var source, bits, j := count / WORD + i / WORD, count % WORD, i % WORD;
      if source >= NONCE_WINDOW_WORDS {
        BitOfZero(j);
      } else {
        ShiftedWordBit(words, source, bits, j);
        if bits + j < WORD {
          assert (i + count) / WORD == source && (i + count) % WORD == bits + j;
        } else {
          assert (i + count) / WORD == source + 1 && (i + count) % WORD == bits + j - WORD;
        }
      }
    }
  }

  lemma {:induction false} ShiftedWordBit(words: Words, source: nat, bits: nat, j: nat)
    requires source < NONCE_WINDOW_WORDS && bits < WORD && j < WORD
    ensures Bit(ShiftedWord(words, source, bits), j) <==>
            if bits + j < WORD then Bit(words[source], bits + j)
            else source + 1 < NONCE_WINDOW_WORDS && Bit(words[source + 1], bits + j - WORD)
  {
    var value := ShiftRight(words[source], bits);
    BitOfShiftRight(words[source], bits, j);
    if bits + j >= WORD {
      Pow2Of64();
      BitAboveWidth(words[source], WORD, bits + j);
    }
    if bits > 0 && source + 1 < NONCE_WINDOW_WORDS {
      var carry := ShiftLeft(words[source + 1], WORD - bits);
      BitOfOr(value, carry, j);
      BitOfShiftLeft(words[source + 1], WORD - bits, j);
    }
  }

  lemma MarkedAfterMark(words: Words, i: nat, j: nat)
    requires i < NONCE_WINDOW && j < NONCE_WINDOW
    ensures Marked(Mark(words, i), j) <==> Marked(words, j) || i == j
  {
    if i / WORD == j / WORD {
      BitOfOr(words[i / WORD], ShiftLeft(1, i % WORD), j % WORD);
      BitOfMask(i % WORD, j % WORD);
    }
  }

  // ----- The window against unbounded history -----------------------------------------------

  /** The floor is zero, or 255 below the highest nonce ever spent. */
  predicate IsFloor(floor: int, spent: set<u64>) {
    && (forall n :: n in spent ==> n <= floor + NONCE_WINDOW - 1)
    && (floor == 0 || (floor > 0 && floor + NONCE_WINDOW - 1 in spent))
  }

  /** The window holds exactly what is left of the history above its floor. */
  predicate Remembers(window: NonceWindow, spent: set<u64>) {
    && IsFloor(window.floor, spent)
    && forall i :: 0 <= i < NONCE_WINDOW ==> (Marked(window.words, i) <==> window.floor + i in spent)
  }

  /** What unbounded history would say of a nonce. */
  predicate TooOld(nonce: u64, spent: set<u64>) {
    exists m :: m in spent && m >= nonce + 256
  }

  predicate Acceptable(nonce: u64, spent: set<u64>) {
    nonce !in spent && !TooOld(nonce, spent)
  }

  /** A slid window remembers the same history, seen from its new floor. */
  lemma SlideRemembers(window: NonceWindow, nonce: u64, spent: set<u64>)
    requires Remembers(window, spent) && nonce >= window.floor
    ensures var slid := window.SlideTo(nonce);
            && window.floor <= slid.floor <= nonce < slid.floor + NONCE_WINDOW
            && (slid == window || slid.floor + NONCE_WINDOW - 1 == nonce)
            && forall i :: 0 <= i < NONCE_WINDOW ==> (Marked(slid.words, i) <==> slid.floor + i in spent)
  {
    var slid := window.SlideTo(nonce);
    if slid != window {
      forall i | 0 <= i < NONCE_WINDOW
        ensures Marked(slid.words, i) <==> slid.floor + i in spent
      {
        ShiftedMarks(window.words, slid.floor - window.floor, i);
        if i + (slid.floor - window.floor) < NONCE_WINDOW {
          assert Marked(window.words, i + (slid.floor - window.floor)) <==> slid.floor + i in spent;
        }
      }
    }
  }

  /** Spending a nonce the slid window has not marked. */
  lemma MarkRemembers(slid: NonceWindow, nonce: u64, spent: set<u64>)
    requires slid.floor <= nonce < slid.floor + NONCE_WINDOW
    requires forall i :: 0 <= i < NONCE_WINDOW ==> (Marked(slid.words, i) <==> slid.floor + i in spent)
    ensures var words := Mark(slid.words, nonce - slid.floor);
            forall i :: 0 <= i < NONCE_WINDOW ==> (Marked(words, i) <==> slid.floor + i in spent + {nonce})
  {
    var words := Mark(slid.words, nonce - slid.floor);
    forall i | 0 <= i < NONCE_WINDOW
      ensures Marked(words, i) <==> slid.floor + i in spent + {nonce}
    {
      MarkedAfterMark(slid.words, nonce - slid.floor, i);
      assert Marked(slid.words, i) <==> slid.floor + i in spent;
    }
  }

  lemma OldExactlyBelowFloor(window: NonceWindow, nonce: u64, spent: set<u64>)
    requires Remembers(window, spent)
    ensures nonce < window.floor <==> TooOld(nonce, spent)
  {
    if nonce < window.floor {
      assert window.floor + NONCE_WINDOW - 1 in spent;
    }
  }

  /** One call: accepted exactly when never accepted before and at most 255 below the highest
      accepted, refused as too old or as used for the matching reason, and remembered if accepted. */
  lemma ConsumeRefinesHistory(window: NonceWindow, nonce: u64, spent: set<u64>)
    requires Remembers(window, spent)
    ensures window.Consume(nonce).Ok? <==> Acceptable(nonce, spent)
    ensures window.Consume(nonce) == Err(AttestationNonceTooOld) <==> TooOld(nonce, spent)
    ensures window.Consume(nonce).Ok? ==> Remembers(window.Consume(nonce).value, spent + {nonce})
  {
    OldExactlyBelowFloor(window, nonce, spent);
    if nonce >= window.floor {
      var slid := window.SlideTo(nonce);
      SlideRemembers(window, nonce, spent);
      assert Marked(slid.words, nonce - slid.floor) <==> slid.floor + (nonce - slid.floor) in spent;
      MarkRemembers(slid, nonce, spent);
      assert IsFloor(slid.floor, spent + {nonce});
    }
  }

  /** A nonce is accepted exactly if it is not below the window and not marked in its 256 places. */
  lemma ConsumesExactly(window: NonceWindow, nonce: u64)
    ensures window.Consume(nonce).Ok? <==>
            window.floor <= nonce && (nonce < window.floor + 256 ==> !Marked(window.words, nonce - window.floor))
  {
    if nonce >= window.floor + 256 {
      ShiftedMarks(window.words, nonce - window.floor - 255, 255);
    }
  }

  /** A whole run of calls, a refused one changing nothing. */
  function ConsumeAll(nonces: seq<u64>): NonceWindow {
    if nonces == [] then FRESH_WINDOW else
    var before := ConsumeAll(nonces[..|nonces| - 1]);
    match before.Consume(nonces[|nonces| - 1])
    case Ok(after) => after
    case Err(_) => before
  }

  /** The nonces unbounded history would have accepted. */
  function AcceptedOf(nonces: seq<u64>): set<u64> {
    if nonces == [] then {} else
    var before := AcceptedOf(nonces[..|nonces| - 1]);
    var nonce := nonces[|nonces| - 1];
    if Acceptable(nonce, before) then before + {nonce} else before
  }

  /** From a fresh account, over any sequence of calls, the 256-bit window decides every call as
      the full history of accepted nonces would. */
  lemma {:induction false} WindowRefinesHistory(nonces: seq<u64>, next: u64)
    ensures Remembers(ConsumeAll(nonces), AcceptedOf(nonces))
    ensures ConsumeAll(nonces).Consume(next).Ok? <==> Acceptable(next, AcceptedOf(nonces))
  {
    if nonces == [] {
      forall i | 0 <= i < NONCE_WINDOW ensures !Marked(FRESH_WINDOW.words, i) {
        BitOfZero(i % WORD);
      }
    } else {
      var last := nonces[|nonces| - 1];
      WindowRefinesHistory(nonces[..|nonces| - 1], last);
      ConsumeRefinesHistory(ConsumeAll(nonces[..|nonces| - 1]), last, AcceptedOf(nonces[..|nonces| - 1]));
    }
    ConsumeRefinesHistory(ConsumeAll(nonces), next, AcceptedOf(nonces));
  }

  // ----- The account the program updates ----------------------------------------------------

  method ShiftWindowDown(words: array<u64>, count: u64)
    requires words.Length == NONCE_WINDOW_WORDS
    modifies words
    ensures words[..] == Shifted(old(words[..]), count)
  {
    if count >= NONCE_WINDOW {
      forall i | 0 <= i < words.Length {
        words[i] := 0;
      }
      return;
    }
    var wholeWords, bits := count / WORD, count % WORD;
    var shifted: Words := [0, 0, 0, 0];
    for source := wholeWords to NONCE_WINDOW_WORDS
      invariant forall t :: 0 <= t < NONCE_WINDOW_WORDS ==>
        shifted[t] == if wholeWords + t < source then ShiftedWord(old(words[..]), wholeWords + t, bits) else 0
    {
      var target := source - wholeWords;
      var value := ShiftRight(words[source], bits);
      if bits > 0 && source + 1 < NONCE_WINDOW_WORDS {
        value := Or64(value, ShiftLeft(words[source + 1], WORD - bits));
      }
      shifted := shifted[target := value];
    }
    forall i | 0 <= i < words.Length {
      words[i] := shifted[i];
    }
  }

  class OperatorAccount {
    const owner: nat
    var totalDebt: u64
    var openLoans: u32
    var overdue: bool
    var nonceFloor: u64
    const usedNonces: array<u64>

    constructor (owner: nat)
      ensures Valid() && fresh(usedNonces)
      ensures State() == FRESH_ACCOUNT && this.owner == owner
    {
      this.owner := owner;
      totalDebt, openLoans, overdue, nonceFloor := 0, 0, false, 0;
      usedNonces := new u64[4] [0, 0, 0, 0];
    }

    ghost predicate Valid() {
      usedNonces.Length == NONCE_WINDOW_WORDS
    }

    ghost function State(): OperatorState
      requires Valid()
      reads this, usedNonces
    {
      OperatorState(totalDebt, openLoans, overdue, NonceWindow(nonceFloor, usedNonces[..]))
    }

    /** Spends a nonce. A refusal changes nothing: when the window slides, the bit it is then
        asked for is the one that has just come in, so no refusal comes after a slide. */
    method ConsumeNonce(nonce: u64) returns (r: Result<()>)
      requires Valid()
      modifies this`nonceFloor, usedNonces
      ensures match old(State()).window.Consume(nonce)
              case Ok(window) => r == Ok(()) && State() == old(State()).(window := window)
              case Err(e) => r == Err(e) && State() == old(State())
    {
      if nonce < nonceFloor {
        return Err(AttestationNonceTooOld);
      }
      ghost var before := State();
      var offset := nonce - nonceFloor;
      if offset >= NONCE_WINDOW {
        var slide := offset - (NONCE_WINDOW - 1);
        ShiftWindowDown(usedNonces, slide);
        nonceFloor := nonceFloor + slide;
        ShiftedMarks(before.window.words, slide, NONCE_WINDOW - 1);
      }
      ghost var slid := before.window.SlideTo(nonce);
      assert NonceWindow(nonceFloor, usedNonces[..]) == slid;
      var bit := nonce - nonceFloor;
      var word := bit / WORD;
      if Bit(usedNonces[word], bit % WORD) {
        return Err(AttestationNonceAlreadyUsed);
      }
      usedNonces[word] := Or64(usedNonces[word], ShiftLeft(1, bit % WORD));
      assert usedNonces[..] == Mark(slid.words, bit);
      return Ok(());
    }
  }
}
