/** The shuffled calculator (src/fragments/f_main/f_shuffled_calc/f_shuffled_calc.cpp):
    the buttons get shuffled ids and shuffled symbols, and the display shows
    the calculator's text with every button character replaced by the
    symbol now on that button. */
module ShuffledCalc {

  /** The ids of the seven operator buttons.  Their values are declared
      outside this file; the code relies on them being distinct and above
      the digit ids 0 .. 9 (onButtonClick treats ids up to 9 as digits). */
  datatype OperatorIds = OperatorIds(plus: int, minus: int, times: int, divide: int,
                                     point: int, clear: int, equals: int)

  predicate WellFormed(ops: OperatorIds) {
    var s := [ops.plus, ops.minus, ops.times, ops.divide, ops.point, ops.clear, ops.equals];
    (forall k :: 0 <= k < |s| ==> s[k] >= 10) &&
    (forall k, m :: 0 <= k < m < |s| ==> s[k] != s[m])
  }

  /** The id list reload shuffles: the ten digits, then the operators. */
  function ButtonIds(ops: OperatorIds): (ids: seq<int>)
    ensures |ids| == 17
    ensures WellFormed(ops) ==> forall k :: 0 <= k < |ids| ==> (0 <= ids[k] <= 9 <==> k < 10)
  {
    OperatorIdsAboveDigits(ops);
    [0, 1, 2, 3, 4, 5, 6, 7, 8, 9,
     ops.plus, ops.minus, ops.times, ops.divide, ops.point, ops.clear, ops.equals]
  }

  lemma OperatorIdsAboveDigits(ops: OperatorIds)
    ensures WellFormed(ops) ==>
      ops.plus >= 10 && ops.minus >= 10 && ops.times >= 10 && ops.divide >= 10 &&
      ops.point >= 10 && ops.clear >= 10 && ops.equals >= 10
  {
    if WellFormed(ops) {
      var s := [ops.plus, ops.minus, ops.times, ops.divide, ops.point, ops.clear, ops.equals];
      assert s[0] >= 10 && s[1] >= 10 && s[2] >= 10 && s[3] >= 10 && s[4] >= 10 && s[5] >= 10 && s[6] >= 10;
    }
  }

  /** idToChar: an id below 10 becomes the first character of its decimal
      text (the digit itself for 0 .. 9, the minus sign for a negative id);
      an operator id becomes its operator character; anything else '_'. */
  function IdToChar(ops: OperatorIds, id: int): (c: char)
    ensures 0 <= id <= 9 ==> c == "0123456789"[id]
    ensures id < 0 ==> c == '-'
    ensures id >= 10 && id !in ButtonIds(ops) ==> c == '_'
  {
    if id < 10 then (if id < 0 then '-' else (48 + id) as char)
    else if id == ops.plus then '+'
    else if id == ops.minus then '-'
    else if id == ops.times then '*'
    else if id == ops.divide then '/'
    else if id == ops.point then '.'
    else if id == ops.clear then 'C'
    else if id == ops.equals then '='
    else '_'
  }

  /** Each button id has its own character: the ten digits, then
      "+-* /.C=" in operator order. */
  lemma IdToCharOfButtons(ops: OperatorIds)
    requires WellFormed(ops)
    ensures forall k :: 0 <= k < 17 ==> IdToChar(ops, ButtonIds(ops)[k]) == "0123456789+-*/.C="[k]
  {
    var ids := ButtonIds(ops);
    var chars := "0123456789+-*/.C=";
    var s := [ops.plus, ops.minus, ops.times, ops.divide, ops.point, ops.clear, ops.equals];
    assert s[0] != s[1] && s[0] != s[2] && s[0] != s[3] && s[0] != s[4] && s[0] != s[5] && s[0] != s[6];
    assert s[1] != s[2] && s[1] != s[3] && s[1] != s[4] && s[1] != s[5] && s[1] != s[6];
    assert s[2] != s[3] && s[2] != s[4] && s[2] != s[5] && s[2] != s[6];
    assert s[3] != s[4] && s[3] != s[5] && s[3] != s[6];
    assert s[4] != s[5] && s[4] != s[6] && s[5] != s[6];
    assert s[0] >= 10 && s[1] >= 10 && s[2] >= 10 && s[3] >= 10 && s[4] >= 10 && s[5] >= 10 && s[6] >= 10;
    assert IdToChar(ops, ids[10]) == chars[10];
    assert IdToChar(ops, ids[11]) == chars[11];
    assert IdToChar(ops, ids[12]) == chars[12];
    assert IdToChar(ops, ids[13]) == chars[13];
    assert IdToChar(ops, ids[14]) == chars[14];
    assert IdToChar(ops, ids[15]) == chars[15];
    assert IdToChar(ops, ids[16]) == chars[16];
  }

  /** The button ids are pairwise distinct. */
  lemma ButtonIdsDistinct(ops: OperatorIds)
    requires WellFormed(ops)
    ensures forall a, b :: 0 <= a < b < 17 ==> ButtonIds(ops)[a] != ButtonIds(ops)[b]
  {
    var ids := ButtonIds(ops);
    var s := [ops.plus, ops.minus, ops.times, ops.divide, ops.point, ops.clear, ops.equals];
    forall a, b | 0 <= a < b < 17
      ensures ids[a] != ids[b]
    {
      if a >= 10 {
        assert ids[a] == s[a - 10] && ids[b] == s[b - 10];
      } else if b >= 10 {
        assert ids[b] == s[b - 10] && s[b - 10] >= 10;
      }
    }
  }

  /** idToChar is one-to-one on the button ids. */
  lemma IdToCharInjective(ops: OperatorIds, x: int, y: int)
    requires WellFormed(ops)
    requires x in ButtonIds(ops) && y in ButtonIds(ops) && x != y
    ensures IdToChar(ops, x) != IdToChar(ops, y)
  {
    var ids := ButtonIds(ops);
    var i :| 0 <= i < |ids| && ids[i] == x;
    var j :| 0 <= j < |ids| && ids[j] == y;
    IdToCharOfButtons(ops);
    ButtonCharsDistinct(i, j);
  }

  /** The seventeen button characters are pairwise distinct. */
  lemma ButtonCharsDistinct(i: nat, j: nat)
    requires i < 17 && j < 17 && i != j
    ensures "0123456789+-*/.C="[i] != "0123456789+-*/.C="[j]
  {
    var chars := "0123456789+-*/.C=";
    assert forall k :: 0 <= k < 10 ==> chars[k] as int == 48 + k;
    assert forall k :: 10 <= k < 17 ==> chars[k] !in "0123456789";
  }

  /** The shuffle of the id list, as an arbitrary permutation: position i of
      the shuffled list holds the id that stood at perm[i]. */
  predicate IsPermutation(perm: seq<nat>, n: nat) {
    |perm| == n &&
    (forall i :: 0 <= i < |perm| ==> perm[i] < n) &&
    (forall i, j :: 0 <= i < j < |perm| ==> perm[i] != perm[j])
  }

  function Shuffled(ids: seq<int>, perm: seq<nat>): seq<int>
    requires forall i :: 0 <= i < |perm| ==> perm[i] < |ids|
  {
    seq(|perm|, i requires 0 <= i < |perm| => ids[perm[i]])
  }

  /** The character table the reload loop writes, starting from `table`:
      button i's id character maps to symbol i; a later button overwrites an
      earlier one with the same character. */
  function SymbolTable(table: map<char, char>, ops: OperatorIds, symbols: seq<char>, newIds: seq<int>): map<char, char>
    requires |symbols| <= |newIds|
    decreases |symbols|
  {
    if |symbols| == 0 then table
    else
      var n := |symbols| - 1;
      SymbolTable(table, ops, symbols[..n], newIds)[IdToChar(ops, newIds[n]) := symbols[n]]
  }

  /** The table's keys are the earlier table's and the buttons'
      characters. */
  lemma {:induction false} SymbolTableKeys(table: map<char, char>, ops: OperatorIds, symbols: seq<char>, newIds: seq<int>)
    requires |symbols| <= |newIds|
    ensures forall c :: c in SymbolTable(table, ops, symbols, newIds) <==>
      c in table || exists i :: 0 <= i < |symbols| && c == IdToChar(ops, newIds[i])
    decreases |symbols|
  {
    if |symbols| > 0 {
      var n := |symbols| - 1;
      SymbolTableKeys(table, ops, symbols[..n], newIds);
      var prev := SymbolTable(table, ops, symbols[..n], newIds);
      var key := IdToChar(ops, newIds[n]);
      assert SymbolTable(table, ops, symbols, newIds).Keys == prev.Keys + {key};
      forall c | exists i :: 0 <= i < |symbols| && c == IdToChar(ops, newIds[i])
        ensures c in prev.Keys + {key}
      {
        var i :| 0 <= i < |symbols| && c == IdToChar(ops, newIds[i]);
        if i < n {
          assert exists j :: 0 <= j < |symbols[..n]| && c == IdToChar(ops, newIds[j]);
        }
      }
      forall c | c in prev.Keys
        ensures c in table || exists i :: 0 <= i < |symbols| && c == IdToChar(ops, newIds[i])
      {
        if c !in table {
          var j :| 0 <= j < |symbols[..n]| && c == IdToChar(ops, newIds[j]);
          assert 0 <= j < |symbols|;
        }
      }
    }
  }

  /** A character no button carries keeps its entry of the earlier table. */
  lemma {:induction false} SymbolTableElsewhere(table: map<char, char>, ops: OperatorIds, symbols: seq<char>, newIds: seq<int>, c: char)
    requires |symbols| <= |newIds|
    requires c in table && forall i :: 0 <= i < |symbols| ==> c != IdToChar(ops, newIds[i])
    ensures c in SymbolTable(table, ops, symbols, newIds)
    ensures SymbolTable(table, ops, symbols, newIds)[c] == table[c]
    decreases |symbols|
  {
    if |symbols| > 0 {
      SymbolTableElsewhere(table, ops, symbols[..|symbols| - 1], newIds, c);
    }
  }

  /** With a permutation of the button ids no two buttons share a
      character, so symbol i is found under button i's character. */
  lemma {:induction false} SymbolTableEntries(table: map<char, char>, ops: OperatorIds, symbols: seq<char>, perm: seq<nat>)
    requires WellFormed(ops) && IsPermutation(perm, 17) && |symbols| <= 17
    ensures var newIds := Shuffled(ButtonIds(ops), perm);
      var t := SymbolTable(table, ops, symbols, newIds);
      forall i :: 0 <= i < |symbols| ==> IdToChar(ops, newIds[i]) in t && t[IdToChar(ops, newIds[i])] == symbols[i]
    decreases |symbols|
  {
    var newIds := Shuffled(ButtonIds(ops), perm);
    if |symbols| > 0 {
      var n := |symbols| - 1;
      SymbolTableEntries(table, ops, symbols[..n], perm);
      var prev := SymbolTable(table, ops, symbols[..n], newIds);
      var t := SymbolTable(table, ops, symbols, newIds);
      assert t == prev[IdToChar(ops, newIds[n]) := symbols[n]];
      forall i | 0 <= i < n
        ensures IdToChar(ops, newIds[i]) in t && t[IdToChar(ops, newIds[i])] == symbols[i]
      {
        ShuffledCharsDistinct(ops, perm, i, n);
        assert symbols[..n][i] == symbols[i];
      }
    }
  }

  /** Two positions of the shuffled id list show different characters. */
  lemma ShuffledCharsDistinct(ops: OperatorIds, perm: seq<nat>, i: nat, j: nat)
    requires WellFormed(ops) && IsPermutation(perm, 17) && i < j < 17
    ensures IdToChar(ops, Shuffled(ButtonIds(ops), perm)[i]) != IdToChar(ops, Shuffled(ButtonIds(ops), perm)[j])
  {
    var ids := ButtonIds(ops);
    var newIds := Shuffled(ids, perm);
    assert newIds[i] == ids[perm[i]] && newIds[j] == ids[perm[j]];
    ButtonIdsDistinct(ops);
    assert perm[i] != perm[j];
    IdToCharInjective(ops, ids[perm[i]], ids[perm[j]]);
  }

  /** One character of the display: its symbol when it has one, itself
      otherwise. */
  function TranslateChar(table: map<char, char>, c: char): char {
    if c in table then table[c] else c
  }

  /** translateToSymbols, character by character. */
  function Translate(table: map<char, char>, s: string): (r: string)
    ensures |r| == |s|
    ensures forall k :: 0 <= k < |s| ==> r[k] == TranslateChar(table, s[k])
  {
    if |s| == 0 then [] else Translate(table, s[..|s| - 1]) + [TranslateChar(table, s[|s| - 1])]
  }

  /** With an empty table the display is unchanged. */
  lemma TranslateEmptyTable(s: string)
    ensures Translate(map[], s) == s
  {
    var r := Translate(map[], s);
    assert forall k :: 0 <= k < |s| ==> r[k] == s[k];
  }

  /** Translation works piecewise on concatenated text. */
  lemma TranslateAppend(table: map<char, char>, s: string, t: string)
    ensures Translate(table, s + t) == Translate(table, s) + Translate(table, t)
  {
    var l := Translate(table, s + t);
    var r := Translate(table, s) + Translate(table, t);
    forall k | 0 <= k < |l|
      ensures l[k] == r[k]
    {
      if k < |s| {
        assert (s + t)[k] == s[k];
      } else {
        assert (s + t)[k] == t[k - |s|];
      }
    }
  }

  /** After a reload, every digit and operator character of the display is
      shown as the symbol on the button that now carries its id. */
  lemma TranslateAfterReload(ops: OperatorIds, symbols: seq<char>, perm: seq<nat>, s: string, k: nat, i: nat)
    requires WellFormed(ops) && IsPermutation(perm, 17) && |symbols| <= 17
    requires k < |s| && i < |symbols|
    requires s[k] == IdToChar(ops, Shuffled(ButtonIds(ops), perm)[i])
    ensures Translate(SymbolTable(map[], ops, symbols, Shuffled(ButtonIds(ops), perm)), s)[k] == symbols[i]
  {
    SymbolTableEntries(map[], ops, symbols, perm);
  }

  /** The fragment's state: the operator ids and the character table. */
  class ShuffledCalc {
    const ops: OperatorIds
    var symbols: map<char, char>

    constructor (operatorIds: OperatorIds)
      ensures ops == operatorIds && symbols == map[]
    {
      ops := operatorIds;
      symbols := map[];
    }

    /** The symbol-table loop of reload: for each button i, record that
        button i's id character now shows symbol i.  The source asserts
        that there is one symbol per button, and indexes the shuffled ids
        by button, so there are no more symbols than ids. */
    method Reload(newSymbols: seq<char>, newIds: seq<int>, buttonCount: nat)
      requires |newSymbols| == buttonCount && |newSymbols| <= |newIds|
      modifies this
      ensures symbols == SymbolTable(old(symbols), ops, newSymbols, newIds)
    {
      var i := 0;
      while i < |newSymbols|
        invariant 0 <= i <= |newSymbols|
        invariant symbols == SymbolTable(old(symbols), ops, newSymbols[..i], newIds)
      {
        assert newSymbols[..i + 1][..i] == newSymbols[..i];
        symbols := symbols[IdToChar(ops, newIds[i]) := newSymbols[i]];
        i := i + 1;
      }
      assert newSymbols[..i] == newSymbols;
    }

    /** translateToSymbols: append each character's symbol, or the
        character itself when it has none. */
    method TranslateToSymbols(str: string) returns (result: string)
      ensures result == Translate(symbols, str)
    {
      result := [];
      var i := 0;
      while i < |str|
        invariant 0 <= i <= |str|
        invariant result == Translate(symbols, str[..i])
      {
        assert str[..i + 1][..i] == str[..i];
        result := result + [if str[i] in symbols then symbols[str[i]] else str[i]];
        i := i + 1;
      }
      assert str[..i] == str;
    }
  }
}
