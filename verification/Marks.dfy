/** The per-symbol mark words of the checker: every symbol has 32 one-bit marks,
    kept in a table that is filled lazily with zero words. */
module Marks {

  type Sym = string

  /** Mark positions; side-condition code can only name the 32 bits of a word. */
  type Bit = i: nat | i < 32

  /** A mark word, as the set of its one-bits. */
  type Word = set<Bit>

  /** A set of marks: which bit is on for which symbol. */
  type MarkSet = set<(Sym, Bit)>

  /** The marks a table of words stands for. */
  ghost function Marked(words: map<Sym, Word>): MarkSet {
    set v, i | v in words && i in words[v] :: (v, i)
  }

  function Flip(marks: MarkSet, v: Sym, i: Bit): MarkSet {
    if (v, i) in marks then marks - {(v, i)} else marks + {(v, i)}
  }

  class MarkMap {
    var words: map<Sym, Word>
    ghost var marks: MarkSet

    ghost predicate Valid()
      reads this
    {
      marks == Marked(words)
    }

    constructor ()
      ensures Valid() && marks == {}
    {
      words := map[];
      marks := {};
    }

    /** Reads a mark word; a symbol that has none yet gets the word zero. */
    method Mark(v: Sym) returns (w: Word)
      requires Valid()
      modifies this
      ensures Valid() && marks == old(marks)
      ensures v in words && words[v] == w
      ensures forall i :: i in w <==> (v, i) in marks
    {
      if v !in words {
        words := words[v := {}];
      }
      w := words[v];
    }

    method GetMark(v: Sym, i: Bit) returns (on: bool)
      requires Valid()
      modifies this
      ensures Valid() && marks == old(marks)
      ensures on <==> (v, i) in marks
    {
      var w := Mark(v);
      on := i in w;
    }

    method SetMark(v: Sym, i: Bit)
      requires Valid()
      modifies this
      ensures Valid() && marks == old(marks) + {(v, i)}
    {
      var w := Mark(v);
      words := words[v := w + {i}];
      marks := marks + {(v, i)};
    }

    method ClearMark(v: Sym, i: Bit)
      requires Valid()
      modifies this
      ensures Valid() && marks == old(marks) - {(v, i)}
    {
      var w := Mark(v);
      words := words[v := w - {i}];
      marks := marks - {(v, i)};
    }

    /** The `markvar` operation: flips one mark. */
    method Toggle(v: Sym, i: Bit)
      requires Valid()
      modifies this
      ensures Valid() && marks == Flip(old(marks), v, i)
    {
      var on := GetMark(v, i);
      if on {
        ClearMark(v, i);
      } else {
        SetMark(v, i);
      }
    }
  }
}
