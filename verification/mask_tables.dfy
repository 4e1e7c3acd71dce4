/**
 * The neighbour lists written out by hand in both filters, one per pair of
 * axis branches (row branch, column branch), and the proof that each lists
 * exactly the cells of the window its branches stand for.
 */
module MaskTables {
  import opened Geometry
  import opened Seqs
  import opened Windows

  /** Level 3: the lists for each (row branch, column branch); branch 2 is the interior. */
  function Level3(rowClass: nat, colClass: nat): seq<int>
    requires rowClass <= 2 && colClass <= 2
  {
    if rowClass == 0 && colClass == 0 then [1, 2, 8, 9]
    else if rowClass == 0 && colClass == 1 then [1, 6, 7, 8]
    else if rowClass == 0 && colClass == 2 then [1, 2, 6, 7, 8, 9]
    else if rowClass == 1 && colClass == 0 then [1, 2, 3, 4]
    else if rowClass == 1 && colClass == 1 then [1, 4, 5, 6]
    else if rowClass == 1 && colClass == 2 then [1, 2, 3, 4, 5, 6]
    else if rowClass == 2 && colClass == 0 then [1, 2, 3, 4, 8, 9]
    else if rowClass == 2 && colClass == 1 then [1, 4, 5, 6, 7, 8]
    else [1, 2, 3, 4, 5, 6, 7, 8, 9]
  }

  /** Level 5: the lists for each (row branch, column branch); branch 4 is the interior. */
  function Level5(rowClass: nat, colClass: nat): seq<int>
    requires rowClass <= 4 && colClass <= 4
  {
    if rowClass == 0 && colClass == 0 then [1, 2, 8, 9, 10, 22, 23, 24, 25]
    else if rowClass == 0 && colClass == 1 then [1, 2, 6, 7, 8, 9, 10, 21, 22, 23, 24, 25]
    else if rowClass == 0 && colClass == 2 then [18, 6, 1, 2, 19, 7, 8, 9, 20, 21, 22, 23]
    else if rowClass == 0 && colClass == 3 then [18, 6, 1, 19, 7, 8, 20, 21, 22]
    else if rowClass == 0 && colClass == 4 then [18, 6, 1, 2, 10, 19, 7, 8, 9, 25, 20, 21, 22, 23, 24]
    else if rowClass == 1 && colClass == 0 then [1, 2, 8, 9, 10, 22, 23, 24, 25, 4, 3, 11]
    else if rowClass == 1 && colClass == 1 then [1, 2, 6, 7, 8, 9, 10, 21, 22, 23, 24, 25, 5, 4, 3, 11]
    else if rowClass == 1 && colClass == 2 then [18, 6, 1, 2, 19, 7, 8, 9, 20, 21, 22, 23, 17, 5, 4, 3]
    else if rowClass == 1 && colClass == 3 then [18, 6, 1, 19, 7, 8, 20, 21, 22, 17, 5, 4]
    else if rowClass == 1 && colClass == 4 then [18, 6, 1, 2, 10, 19, 7, 8, 9, 25, 20, 21, 22, 23, 24, 17, 5, 4, 3, 11]
    else if rowClass == 2 && colClass == 0 then [14, 13, 12, 11, 4, 3, 1, 2, 10, 8, 9, 25]
    else if rowClass == 2 && colClass == 1 then [15, 14, 13, 12, 5, 4, 3, 11, 6, 1, 2, 10, 7, 8, 9, 25]
    else if rowClass == 2 && colClass == 2 then [16, 15, 14, 13, 17, 5, 4, 3, 18, 6, 1, 2, 19, 7, 8, 9]
    else if rowClass == 2 && colClass == 3 then [16, 15, 14, 17, 5, 4, 18, 6, 1, 19, 7, 8]
    else if rowClass == 2 && colClass == 4 then [18, 6, 1, 2, 10, 19, 7, 8, 9, 25, 17, 5, 4, 3, 11, 16, 15, 14, 13, 12]
    else if rowClass == 3 && colClass == 0 then [14, 13, 12, 11, 4, 3, 1, 2, 10]
    else if rowClass == 3 && colClass == 1 then [15, 14, 13, 12, 5, 4, 3, 11, 6, 1, 2, 10]
    else if rowClass == 3 && colClass == 2 then [16, 15, 14, 13, 17, 5, 4, 3, 18, 6, 1, 2]
    else if rowClass == 3 && colClass == 3 then [16, 15, 14, 17, 5, 4, 18, 6, 1]
    else if rowClass == 3 && colClass == 4 then [18, 6, 1, 2, 10, 17, 5, 4, 3, 11, 16, 15, 14, 13, 12]
    else if rowClass == 4 && colClass == 0 then [14, 13, 12, 4, 3, 11, 1, 2, 10, 8, 9, 25, 22, 23, 24]
    else if rowClass == 4 && colClass == 1 then [15, 14, 13, 12, 5, 4, 3, 11, 6, 1, 2, 10, 7, 8, 9, 25, 21, 22, 23, 24]
    else if rowClass == 4 && colClass == 2 then [16, 15, 14, 13, 17, 5, 4, 3, 18, 6, 1, 2, 19, 7, 8, 9, 20, 21, 22, 23]
    else if rowClass == 4 && colClass == 3 then [16, 15, 14, 17, 5, 4, 18, 6, 1, 19, 7, 8, 20, 21, 22]
    else [1, 2, 3, 4, 5, 6, 7, 8, 9, 10, 11, 12, 13, 14, 15, 16, 17, 18, 19, 20, 21, 22, 23, 24, 25]
  }

  /** Level 7: the lists for each (row branch, column branch); branch 6 is the interior. */
  function Level7(rowClass: nat, colClass: nat): seq<int>
    requires rowClass <= 6 && colClass <= 6
  {
    if rowClass == 0 && colClass == 0 then [1, 2, 10, 26, 8, 9, 25, 49, 22, 23, 24, 48, 44, 45, 46, 47]
    else if rowClass == 0 && colClass == 1 then [1, 2, 10, 26, 8, 9, 25, 49, 22, 23, 24, 48, 44, 45, 46, 47, 6, 7, 21, 43]
    else if rowClass == 0 && colClass == 2 then [1, 2, 10, 26, 8, 9, 25, 49, 22, 23, 24, 48, 44, 45, 46, 47, 6, 7, 21, 43, 18, 19, 20, 42]
    else if rowClass == 0 && colClass == 3 then [38, 18, 6, 1, 39, 19, 7, 8, 40, 20, 21, 22, 41, 42, 43, 44, 2, 9, 23, 45, 10, 25, 24, 46]
    else if rowClass == 0 && colClass == 4 then [38, 18, 6, 1, 39, 19, 7, 8, 40, 20, 21, 22, 41, 42, 43, 44, 2, 9, 23, 45]
    else if rowClass == 0 && colClass == 5 then [38, 18, 6, 1, 39, 19, 7, 8, 40, 20, 21, 22, 41, 42, 43, 44]
    else if rowClass == 0 && colClass == 6 then [1, 2, 10, 26, 8, 9, 25, 49, 22, 23, 24, 48, 44, 45, 46, 47, 6, 7, 21, 43, 18, 19, 20, 42, 38, 39, 40, 41]
    else if rowClass == 1 && colClass == 0 then [1, 2, 10, 26, 8, 9, 25, 49, 22, 23, 24, 48, 44, 45, 46, 47, 4, 3, 11, 27]
    else if rowClass == 1 && colClass == 1 then [1, 2, 10, 26, 8, 9, 25, 49, 22, 23, 24, 48, 44, 45, 46, 47, 6, 7, 21, 43, 5, 4, 3, 11, 27]
    else if rowClass == 1 && colClass == 2 then [1, 2, 10, 26, 8, 9, 25, 49, 22, 23, 24, 48, 44, 45, 46, 47, 6, 7, 21, 43, 18, 19, 20, 42, 17, 5, 4, 3, 11, 27]
    else if rowClass == 1 && colClass == 3 then [38, 18, 6, 1, 39, 19, 7, 8, 40, 20, 21, 22, 41, 42, 43, 44, 2, 9, 23, 45, 10, 25, 24, 46, 37, 17, 5, 4, 3, 11]
    else if rowClass == 1 && colClass == 4 then [38, 18, 6, 1, 39, 19, 7, 8, 40, 20, 21, 22, 41, 42, 43, 44, 2, 9, 23, 45, 37, 17, 5, 4, 3]
    else if rowClass == 1 && colClass == 5 then [38, 18, 6, 1, 39, 19, 7, 8, 40, 20, 21, 22, 41, 42, 43, 44, 37, 17, 5, 4]
    else if rowClass == 1 && colClass == 6 then [1, 2, 10, 26, 8, 9, 25, 49, 22, 23, 24, 48, 44, 45, 46, 47, 6, 7, 21, 43, 18, 19, 20, 42, 38, 39, 40, 41, 37, 17, 5, 4, 3, 11, 27]
    else if rowClass == 2 && colClass == 0 then [1, 2, 10, 26, 8, 9, 25, 49, 22, 23, 24, 48, 44, 45, 46, 47, 4, 3, 11, 27, 14, 13, 12, 28]
    else if rowClass == 2 && colClass == 1 then [1, 2, 10, 26, 8, 9, 25, 49, 22, 23, 24, 48, 44, 45, 46, 47, 6, 7, 21, 43, 5, 4, 3, 11, 27, 15, 14, 13, 12, 28]
    else if rowClass == 2 && colClass == 2 then [1, 2, 10, 26, 8, 9, 25, 49, 22, 23, 24, 48, 44, 45, 46, 47, 6, 7, 21, 43, 18, 19, 20, 42, 17, 5, 4, 3, 11, 27, 16, 15, 14, 13, 12, 28]
    else if rowClass == 2 && colClass == 3 then [38, 18, 6, 1, 39, 19, 7, 8, 40, 20, 21, 22, 41, 42, 43, 44, 2, 9, 23, 45, 10, 25, 24, 46, 37, 17, 5, 4, 3, 11, 36, 16, 15, 14, 13, 12]
    else if rowClass == 2 && colClass == 4 then [38, 18, 6, 1, 39, 19, 7, 8, 40, 20, 21, 22, 41, 42, 43, 44, 2, 9, 23, 45, 37, 17, 5, 4, 3, 36, 16, 15, 14, 13]
    else if rowClass == 2 && colClass == 5 then [38, 18, 6, 1, 39, 19, 7, 8, 40, 20, 21, 22, 41, 42, 43, 44, 37, 17, 5, 4, 36, 16, 15, 14]
    else if rowClass == 2 && colClass == 6 then ([1, 2, 10, 26, 8, 9, 25, 49, 22, 23, 24, 48, 44, 45, 46, 47, 6, 7, 21, 43, 18, 19, 20, 42]
      + [38, 39, 40, 41, 37, 17, 5, 4, 3, 11, 27, 36, 16, 15, 14, 13, 12, 28])
    else if rowClass == 3 && colClass == 0 then [32, 31, 30, 29, 14, 13, 12, 28, 4, 3, 11, 27, 1, 2, 10, 26, 8, 9, 25, 49, 22, 23, 24, 48]
    else if rowClass == 3 && colClass == 1 then [32, 31, 30, 29, 14, 13, 12, 28, 4, 3, 11, 27, 1, 2, 10, 26, 33, 15, 5, 6, 7, 8, 9, 25, 49, 21, 22, 23, 24, 48]
    else if rowClass == 3 && colClass == 2 then [32, 31, 30, 29, 14, 13, 12, 28, 4, 3, 11, 27, 1, 2, 10, 26, 33, 15, 5, 6, 34, 16, 17, 18, 19, 7, 8, 9, 25, 49, 20, 21, 22, 23, 24, 48]
    else if rowClass == 3 && colClass == 3 then [35, 34, 33, 32, 36, 16, 15, 14, 37, 17, 5, 4, 38, 18, 6, 1, 31, 13, 3, 2, 30, 12, 11, 10, 39, 19, 7, 8, 9, 25, 40, 20, 21, 22, 23, 24]
    else if rowClass == 3 && colClass == 4 then [35, 34, 33, 32, 36, 16, 15, 14, 37, 17, 5, 4, 38, 18, 6, 1, 31, 13, 3, 2, 39, 19, 7, 8, 9, 40, 20, 21, 22, 23]
    else if rowClass == 3 && colClass == 5 then [35, 34, 33, 32, 36, 16, 15, 14, 37, 17, 5, 4, 38, 18, 6, 1, 39, 19, 7, 8, 40, 20, 21, 22]
    else if rowClass == 3 && colClass == 6 then ([32, 31, 30, 29, 14, 13, 12, 28, 4, 3, 11, 27, 1, 2, 10, 26, 33, 15, 5, 6, 34, 16, 17, 18]
      + [35, 36, 37, 38, 39, 19, 7, 8, 9, 25, 49, 40, 20, 21, 22, 23, 24, 48])
    else if rowClass == 4 && colClass == 0 then [32, 31, 30, 29, 14, 13, 12, 28, 4, 3, 11, 27, 1, 2, 10, 26, 8, 9, 25, 49]
    else if rowClass == 4 && colClass == 1 then [32, 31, 30, 29, 14, 13, 12, 28, 4, 3, 11, 27, 1, 2, 10, 26, 33, 15, 5, 6, 7, 8, 9, 25, 49]
    else if rowClass == 4 && colClass == 2 then [32, 31, 30, 29, 14, 13, 12, 28, 4, 3, 11, 27, 1, 2, 10, 26, 33, 15, 5, 6, 34, 16, 17, 18, 19, 7, 8, 9, 25, 49]
    else if rowClass == 4 && colClass == 3 then [35, 34, 33, 32, 36, 16, 15, 14, 37, 17, 5, 4, 38, 18, 6, 1, 31, 13, 3, 2, 30, 12, 11, 10, 39, 19, 7, 8, 9, 25]
    else if rowClass == 4 && colClass == 4 then [35, 34, 33, 32, 36, 16, 15, 14, 37, 17, 5, 4, 38, 18, 6, 1, 31, 13, 3, 2, 39, 19, 7, 8, 9]
    else if rowClass == 4 && colClass == 5 then [35, 34, 33, 32, 36, 16, 15, 14, 37, 17, 5, 4, 38, 18, 6, 1, 39, 19, 7, 8]
    else if rowClass == 4 && colClass == 6 then [32, 31, 30, 29, 14, 13, 12, 28, 4, 3, 11, 27, 1, 2, 10, 26, 33, 15, 5, 6, 34, 16, 17, 18, 35, 36, 37, 38, 39, 19, 7, 8, 9, 25, 49]
    else if rowClass == 5 && colClass == 0 then [32, 31, 30, 29, 14, 13, 12, 28, 4, 3, 11, 27, 1, 2, 10, 26]
    else if rowClass == 5 && colClass == 1 then [32, 31, 30, 29, 14, 13, 12, 28, 4, 3, 11, 27, 1, 2, 10, 26, 33, 15, 5, 6]
    else if rowClass == 5 && colClass == 2 then [32, 31, 30, 29, 14, 13, 12, 28, 4, 3, 11, 27, 1, 2, 10, 26, 33, 15, 5, 6, 34, 16, 17, 18]
    else if rowClass == 5 && colClass == 3 then [35, 34, 33, 32, 36, 16, 15, 14, 37, 17, 5, 4, 38, 18, 6, 1, 31, 13, 3, 2, 30, 12, 11, 10]
    else if rowClass == 5 && colClass == 4 then [35, 34, 33, 32, 36, 16, 15, 14, 37, 17, 5, 4, 38, 18, 6, 1, 31, 13, 3, 2]
    else if rowClass == 5 && colClass == 5 then [35, 34, 33, 32, 36, 16, 15, 14, 37, 17, 5, 4, 38, 18, 6, 1]
    else if rowClass == 5 && colClass == 6 then [32, 31, 30, 29, 14, 13, 12, 28, 4, 3, 11, 27, 1, 2, 10, 26, 33, 15, 5, 6, 34, 16, 17, 18, 35, 36, 37, 38]
    else if rowClass == 6 && colClass == 0 then [32, 31, 30, 29, 14, 13, 12, 28, 4, 3, 11, 27, 1, 2, 10, 26, 8, 9, 25, 49, 22, 23, 24, 48, 44, 45, 46, 47]
    else if rowClass == 6 && colClass == 1 then [32, 31, 30, 29, 14, 13, 12, 28, 4, 3, 11, 27, 1, 2, 10, 26, 33, 15, 5, 6, 7, 8, 9, 25, 49, 21, 22, 23, 24, 48, 43, 44, 45, 46, 47]
    else if rowClass == 6 && colClass == 2 then ([32, 31, 30, 29, 14, 13, 12, 28, 4, 3, 11, 27, 1, 2, 10, 26, 33, 15, 5, 6, 34, 16, 17, 18]
      + [19, 7, 8, 9, 25, 49, 20, 21, 22, 23, 24, 48, 42, 43, 44, 45, 46, 47])
    else if rowClass == 6 && colClass == 3 then ([35, 34, 33, 32, 36, 16, 15, 14, 37, 17, 5, 4, 38, 18, 6, 1, 31, 13, 3, 2, 30, 12, 11, 10]
      + [39, 19, 7, 8, 9, 25, 40, 20, 21, 22, 23, 24, 41, 42, 43, 44, 45, 46])
    else if rowClass == 6 && colClass == 4 then [35, 34, 33, 32, 36, 16, 15, 14, 37, 17, 5, 4, 38, 18, 6, 1, 31, 13, 3, 2, 39, 19, 7, 8, 9, 40, 20, 21, 22, 23, 41, 42, 43, 44, 45]
    else if rowClass == 6 && colClass == 5 then [35, 34, 33, 32, 36, 16, 15, 14, 37, 17, 5, 4, 38, 18, 6, 1, 39, 19, 7, 8, 40, 20, 21, 22, 41, 42, 43, 44]
    else ([32, 31, 30, 29, 14, 13, 12, 28, 4, 3, 11, 27, 1, 2, 10, 26, 33, 15, 5, 6, 34, 16, 17, 18]
      + [35, 36, 37, 38, 39, 19, 7, 8, 9, 25, 49, 40, 20, 21, 22, 23, 24, 48, 41, 42, 43, 44, 45, 46, 47])
  }

  /** The list the source passes for the given level and branches. */
  function MaskTable(level: int, rowClass: nat, colClass: nat): seq<int>
    requires ValidLevel(level) && rowClass <= 2 * Reach(level) && colClass <= 2 * Reach(level)
  {
    if level == 3 then Level3(rowClass, colClass)
    else if level == 5 then Level5(rowClass, colClass)
    else Level7(rowClass, colClass)
  }

  /** `t` is as long as the window and names every cell of it. */
  ghost predicate Covers(t: seq<int>, rows: Span, cols: Span)
  {
    && SpanFits(rows) && SpanFits(cols)
    && |t| == Cells(Extent(rows), Extent(cols))
    && forall c | InWindow(c, rows, cols) :: c in t
  }

  lemma CodeCases(c: int)
    requires IsCode(c)
    ensures c == 1 || c == 2 || c == 3 || c == 4 || c == 5 || c == 6 || c == 7 || c == 8 || c == 9 || c == 10 || c == 11 || c == 12 || c == 13 || c == 14 || c == 15 || c == 16 || c == 17 || c == 18 || c == 19 || c == 20 || c == 21 || c == 22 || c == 23 || c == 24 || c == 25 || c == 26 || c == 27 || c == 28 || c == 29 || c == 30 || c == 31 || c == 32 || c == 33 || c == 34 || c == 35 || c == 36 || c == 37 || c == 38 || c == 39 || c == 40 || c == 41 || c == 42 || c == 43 || c == 44 || c == 45 || c == 46 || c == 47 || c == 48 || c == 49
  {
  }

  /**
   * Every hand-written list is a duplicate-free enumeration of the window
   * its branches stand for.
   */
  lemma TableExact(level: int, rowClass: nat, colClass: nat)
    requires ValidLevel(level) && rowClass <= 2 * Reach(level) && colClass <= 2 * Reach(level)
    ensures NoDup(MaskTable(level, rowClass, colClass))
    ensures forall c :: c in MaskTable(level, rowClass, colClass) <==>
      InWindow(c, ClassSpan(level, rowClass), ClassSpan(level, colClass))
    ensures multiset(MaskTable(level, rowClass, colClass))
         == multiset(Window(ClassSpan(level, rowClass), ClassSpan(level, colClass)))
  {
    var t := MaskTable(level, rowClass, colClass);
    var rows, cols := ClassSpan(level, rowClass), ClassSpan(level, colClass);
    if level == 3 {
      Level3Covers(rowClass, colClass);
    } else if level == 5 {
      Level5Covers(rowClass, colClass);
    } else {
      Level7Covers(rowClass, colClass);
    }
    CoveringIsExact(t, rows, cols);
  }

  /** A list as long as the window that names every cell names each exactly once. */
  lemma CoveringIsExact(t: seq<int>, rows: Span, cols: Span)
    requires Covers(t, rows, cols)
    ensures NoDup(t)
    ensures forall c :: c in t <==> InWindow(c, rows, cols)
    ensures multiset(t) == multiset(Window(rows, cols))
  {
    var w := Window(rows, cols);
    WindowSize(rows, cols);
    assert forall x | x in w :: x in t;
    Pigeonhole(t, w);
  }

  lemma Level3Covers(rowClass: nat, colClass: nat)
    requires rowClass <= 2 && colClass <= 2
    ensures Covers(Level3(rowClass, colClass), ClassSpan(3, rowClass), ClassSpan(3, colClass))
  {
    if rowClass == 0 {
      Level3Row0Covers(colClass);
    } else if rowClass == 1 {
      Level3Row1Covers(colClass);
    } else {
      Level3Row2Covers(colClass);
    }
  }

  lemma Level3Row0Covers(colClass: nat)
    requires colClass <= 2
    ensures Covers(Level3(0, colClass), ClassSpan(3, 0), ClassSpan(3, colClass))
  {
    if colClass == 0 {
      Level3Row0Col0Covers();
    } else if colClass == 1 {
      Level3Row0Col1Covers();
    } else {
      Level3Row0Col2Covers();
    }
  }

  lemma Level3Row0Col0Covers()
    ensures Covers(Level3(0, 0), ClassSpan(3, 0), ClassSpan(3, 0))
  {
    var rows, cols := ClassSpan(3, 0), ClassSpan(3, 0);
    forall c | InWindow(c, rows, cols) ensures c in Level3(0, 0) {
      CodeCases(c);
    }
  }

  lemma Level3Row0Col1Covers()
    ensures Covers(Level3(0, 1), ClassSpan(3, 0), ClassSpan(3, 1))
  {
    var rows, cols := ClassSpan(3, 0), ClassSpan(3, 1);
    forall c | InWindow(c, rows, cols) ensures c in Level3(0, 1) {
      CodeCases(c);
    }
  }

  lemma Level3Row0Col2Covers()
    ensures Covers(Level3(0, 2), ClassSpan(3, 0), ClassSpan(3, 2))
  {
    var rows, cols := ClassSpan(3, 0), ClassSpan(3, 2);
    forall c | InWindow(c, rows, cols) ensures c in Level3(0, 2) {
      CodeCases(c);
    }
  }

  lemma Level3Row1Covers(colClass: nat)
    requires colClass <= 2
    ensures Covers(Level3(1, colClass), ClassSpan(3, 1), ClassSpan(3, colClass))
  {
    if colClass == 0 {
      Level3Row1Col0Covers();
    } else if colClass == 1 {
      Level3Row1Col1Covers();
    } else {
      Level3Row1Col2Covers();
    }
  }

  lemma Level3Row1Col0Covers()
    ensures Covers(Level3(1, 0), ClassSpan(3, 1), ClassSpan(3, 0))
  {
    var rows, cols := ClassSpan(3, 1), ClassSpan(3, 0);
    forall c | InWindow(c, rows, cols) ensures c in Level3(1, 0) {
      CodeCases(c);
    }
  }

  lemma Level3Row1Col1Covers()
    ensures Covers(Level3(1, 1), ClassSpan(3, 1), ClassSpan(3, 1))
  {
    var rows, cols := ClassSpan(3, 1), ClassSpan(3, 1);
    forall c | InWindow(c, rows, cols) ensures c in Level3(1, 1) {
      CodeCases(c);
    }
  }

  lemma Level3Row1Col2Covers()
    ensures Covers(Level3(1, 2), ClassSpan(3, 1), ClassSpan(3, 2))
  {
    var rows, cols := ClassSpan(3, 1), ClassSpan(3, 2);
    forall c | InWindow(c, rows, cols) ensures c in Level3(1, 2) {
      CodeCases(c);
    }
  }

  lemma Level3Row2Covers(colClass: nat)
    requires colClass <= 2
    ensures Covers(Level3(2, colClass), ClassSpan(3, 2), ClassSpan(3, colClass))
  {
    if colClass == 0 {
      Level3Row2Col0Covers();
    } else if colClass == 1 {
      Level3Row2Col1Covers();
    } else {
      Level3Row2Col2Covers();
    }
  }

  lemma Level3Row2Col0Covers()
    ensures Covers(Level3(2, 0), ClassSpan(3, 2), ClassSpan(3, 0))
  {
    var rows, cols := ClassSpan(3, 2), ClassSpan(3, 0);
    forall c | InWindow(c, rows, cols) ensures c in Level3(2, 0) {
      CodeCases(c);
    }
  }

  lemma Level3Row2Col1Covers()
    ensures Covers(Level3(2, 1), ClassSpan(3, 2), ClassSpan(3, 1))
  {
    var rows, cols := ClassSpan(3, 2), ClassSpan(3, 1);
    forall c | InWindow(c, rows, cols) ensures c in Level3(2, 1) {
      CodeCases(c);
    }
  }

  lemma Level3Row2Col2Covers()
    ensures Covers(Level3(2, 2), ClassSpan(3, 2), ClassSpan(3, 2))
  {
    var rows, cols := ClassSpan(3, 2), ClassSpan(3, 2);
    forall c | InWindow(c, rows, cols) ensures c in Level3(2, 2) {
      CodeCases(c);
    }
  }

  lemma Level5Covers(rowClass: nat, colClass: nat)
    requires rowClass <= 4 && colClass <= 4
    ensures Covers(Level5(rowClass, colClass), ClassSpan(5, rowClass), ClassSpan(5, colClass))
  {
    if rowClass == 0 {
      Level5Row0Covers(colClass);
    } else if rowClass == 1 {
      Level5Row1Covers(colClass);
    } else if rowClass == 2 {
      Level5Row2Covers(colClass);
    } else if rowClass == 3 {
      Level5Row3Covers(colClass);
    } else {
      Level5Row4Covers(colClass);
    }
  }

  lemma Level5Row0Covers(colClass: nat)
    requires colClass <= 4
    ensures Covers(Level5(0, colClass), ClassSpan(5, 0), ClassSpan(5, colClass))
  {
    if colClass == 0 {
      Level5Row0Col0Covers();
    } else if colClass == 1 {
      Level5Row0Col1Covers();
    } else if colClass == 2 {
      Level5Row0Col2Covers();
    } else if colClass == 3 {
      Level5Row0Col3Covers();
    } else {
      Level5Row0Col4Covers();
    }
  }

  lemma Level5Row0Col0Covers()
    ensures Covers(Level5(0, 0), ClassSpan(5, 0), ClassSpan(5, 0))
  {
    var rows, cols := ClassSpan(5, 0), ClassSpan(5, 0);
    forall c | InWindow(c, rows, cols) ensures c in Level5(0, 0) {
      CodeCases(c);
    }
  }

  lemma Level5Row0Col1Covers()
    ensures Covers(Level5(0, 1), ClassSpan(5, 0), ClassSpan(5, 1))
  {
    var rows, cols := ClassSpan(5, 0), ClassSpan(5, 1);
    forall c | InWindow(c, rows, cols) ensures c in Level5(0, 1) {
      CodeCases(c);
    }
  }

  lemma Level5Row0Col2Covers()
    ensures Covers(Level5(0, 2), ClassSpan(5, 0), ClassSpan(5, 2))
  {
    var rows, cols := ClassSpan(5, 0), ClassSpan(5, 2);
    forall c | InWindow(c, rows, cols) ensures c in Level5(0, 2) {
      CodeCases(c);
    }
  }

  lemma Level5Row0Col3Covers()
    ensures Covers(Level5(0, 3), ClassSpan(5, 0), ClassSpan(5, 3))
  {
    var rows, cols := ClassSpan(5, 0), ClassSpan(5, 3);
    forall c | InWindow(c, rows, cols) ensures c in Level5(0, 3) {
      CodeCases(c);
    }
  }

  lemma Level5Row0Col4Covers()
    ensures Covers(Level5(0, 4), ClassSpan(5, 0), ClassSpan(5, 4))
  {
    var rows, cols := ClassSpan(5, 0), ClassSpan(5, 4);
    forall c | InWindow(c, rows, cols) ensures c in Level5(0, 4) {
      CodeCases(c);
    }
  }

  lemma Level5Row1Covers(colClass: nat)
    requires colClass <= 4
    ensures Covers(Level5(1, colClass), ClassSpan(5, 1), ClassSpan(5, colClass))
  {
    if colClass == 0 {
      Level5Row1Col0Covers();
    } else if colClass == 1 {
      Level5Row1Col1Covers();
    } else if colClass == 2 {
      Level5Row1Col2Covers();
    } else if colClass == 3 {
      Level5Row1Col3Covers();
    } else {
      Level5Row1Col4Covers();
    }
  }

  lemma Level5Row1Col0Covers()
    ensures Covers(Level5(1, 0), ClassSpan(5, 1), ClassSpan(5, 0))
  {
    var rows, cols := ClassSpan(5, 1), ClassSpan(5, 0);
    forall c | InWindow(c, rows, cols) ensures c in Level5(1, 0) {
      CodeCases(c);
    }
  }

  lemma Level5Row1Col1Covers()
    ensures Covers(Level5(1, 1), ClassSpan(5, 1), ClassSpan(5, 1))
  {
    var rows, cols := ClassSpan(5, 1), ClassSpan(5, 1);
    forall c | InWindow(c, rows, cols) ensures c in Level5(1, 1) {
      CodeCases(c);
    }
  }

  lemma Level5Row1Col2Covers()
    ensures Covers(Level5(1, 2), ClassSpan(5, 1), ClassSpan(5, 2))
  {
    var rows, cols := ClassSpan(5, 1), ClassSpan(5, 2);
    forall c | InWindow(c, rows, cols) ensures c in Level5(1, 2) {
      CodeCases(c);
    }
  }

  lemma Level5Row1Col3Covers()
    ensures Covers(Level5(1, 3), ClassSpan(5, 1), ClassSpan(5, 3))
  {
    var rows, cols := ClassSpan(5, 1), ClassSpan(5, 3);
    forall c | InWindow(c, rows, cols) ensures c in Level5(1, 3) {
      CodeCases(c);
    }
  }

  lemma Level5Row1Col4Covers()
    ensures Covers(Level5(1, 4), ClassSpan(5, 1), ClassSpan(5, 4))
  {
    var rows, cols := ClassSpan(5, 1), ClassSpan(5, 4);
    forall c | InWindow(c, rows, cols) ensures c in Level5(1, 4) {
      CodeCases(c);
    }
  }

  lemma Level5Row2Covers(colClass: nat)
    requires colClass <= 4
    ensures Covers(Level5(2, colClass), ClassSpan(5, 2), ClassSpan(5, colClass))
  {
    if colClass == 0 {
      Level5Row2Col0Covers();
    } else if colClass == 1 {
      Level5Row2Col1Covers();
    } else if colClass == 2 {
      Level5Row2Col2Covers();
    } else if colClass == 3 {
      Level5Row2Col3Covers();
    } else {
      Level5Row2Col4Covers();
    }
  }

  lemma Level5Row2Col0Covers()
    ensures Covers(Level5(2, 0), ClassSpan(5, 2), ClassSpan(5, 0))
  {
    var rows, cols := ClassSpan(5, 2), ClassSpan(5, 0);
    forall c | InWindow(c, rows, cols) ensures c in Level5(2, 0) {
      CodeCases(c);
    }
  }

  lemma Level5Row2Col1Covers()
    ensures Covers(Level5(2, 1), ClassSpan(5, 2), ClassSpan(5, 1))
  {
    var rows, cols := ClassSpan(5, 2), ClassSpan(5, 1);
    forall c | InWindow(c, rows, cols) ensures c in Level5(2, 1) {
      CodeCases(c);
    }
  }

  lemma Level5Row2Col2Covers()
    ensures Covers(Level5(2, 2), ClassSpan(5, 2), ClassSpan(5, 2))
  {
    var rows, cols := ClassSpan(5, 2), ClassSpan(5, 2);
    forall c | InWindow(c, rows, cols) ensures c in Level5(2, 2) {
      CodeCases(c);
    }
  }

  lemma Level5Row2Col3Covers()
    ensures Covers(Level5(2, 3), ClassSpan(5, 2), ClassSpan(5, 3))
  {
    var rows, cols := ClassSpan(5, 2), ClassSpan(5, 3);
    forall c | InWindow(c, rows, cols) ensures c in Level5(2, 3) {
      CodeCases(c);
    }
  }

  lemma Level5Row2Col4Covers()
    ensures Covers(Level5(2, 4), ClassSpan(5, 2), ClassSpan(5, 4))
  {
    var rows, cols := ClassSpan(5, 2), ClassSpan(5, 4);
    forall c | InWindow(c, rows, cols) ensures c in Level5(2, 4) {
      CodeCases(c);
    }
  }

  lemma Level5Row3Covers(colClass: nat)
    requires colClass <= 4
    ensures Covers(Level5(3, colClass), ClassSpan(5, 3), ClassSpan(5, colClass))
  {
    if colClass == 0 {
      Level5Row3Col0Covers();
    } else if colClass == 1 {
      Level5Row3Col1Covers();
    } else if colClass == 2 {
      Level5Row3Col2Covers();
    } else if colClass == 3 {
      Level5Row3Col3Covers();
    } else {
      Level5Row3Col4Covers();
    }
  }

  lemma Level5Row3Col0Covers()
    ensures Covers(Level5(3, 0), ClassSpan(5, 3), ClassSpan(5, 0))
  {
    var rows, cols := ClassSpan(5, 3), ClassSpan(5, 0);
    forall c | InWindow(c, rows, cols) ensures c in Level5(3, 0) {
      CodeCases(c);
    }
  }

  lemma Level5Row3Col1Covers()
    ensures Covers(Level5(3, 1), ClassSpan(5, 3), ClassSpan(5, 1))
  {
    var rows, cols := ClassSpan(5, 3), ClassSpan(5, 1);
    forall c | InWindow(c, rows, cols) ensures c in Level5(3, 1) {
      CodeCases(c);
    }
  }

  lemma Level5Row3Col2Covers()
    ensures Covers(Level5(3, 2), ClassSpan(5, 3), ClassSpan(5, 2))
  {
    var rows, cols := ClassSpan(5, 3), ClassSpan(5, 2);
    forall c | InWindow(c, rows, cols) ensures c in Level5(3, 2) {
      CodeCases(c);
    }
  }

  lemma Level5Row3Col3Covers()
    ensures Covers(Level5(3, 3), ClassSpan(5, 3), ClassSpan(5, 3))
  {
    var rows, cols := ClassSpan(5, 3), ClassSpan(5, 3);
    forall c | InWindow(c, rows, cols) ensures c in Level5(3, 3) {
      CodeCases(c);
    }
  }

  lemma Level5Row3Col4Covers()
    ensures Covers(Level5(3, 4), ClassSpan(5, 3), ClassSpan(5, 4))
  {
    var rows, cols := ClassSpan(5, 3), ClassSpan(5, 4);
    forall c | InWindow(c, rows, cols) ensures c in Level5(3, 4) {
      CodeCases(c);
    }
  }

  lemma Level5Row4Covers(colClass: nat)
    requires colClass <= 4
    ensures Covers(Level5(4, colClass), ClassSpan(5, 4), ClassSpan(5, colClass))
  {
    if colClass == 0 {
      Level5Row4Col0Covers();
    } else if colClass == 1 {
      Level5Row4Col1Covers();
    } else if colClass == 2 {
      Level5Row4Col2Covers();
    } else if colClass == 3 {
      Level5Row4Col3Covers();
    } else {
      Level5Row4Col4Covers();
    }
  }

  lemma Level5Row4Col0Covers()
    ensures Covers(Level5(4, 0), ClassSpan(5, 4), ClassSpan(5, 0))
  {
    var rows, cols := ClassSpan(5, 4), ClassSpan(5, 0);
    forall c | InWindow(c, rows, cols) ensures c in Level5(4, 0) {
      CodeCases(c);
    }
  }

  lemma Level5Row4Col1Covers()
    ensures Covers(Level5(4, 1), ClassSpan(5, 4), ClassSpan(5, 1))
  {
    var rows, cols := ClassSpan(5, 4), ClassSpan(5, 1);
    forall c | InWindow(c, rows, cols) ensures c in Level5(4, 1) {
      CodeCases(c);
    }
  }

  lemma Level5Row4Col2Covers()
    ensures Covers(Level5(4, 2), ClassSpan(5, 4), ClassSpan(5, 2))
  {
    var rows, cols := ClassSpan(5, 4), ClassSpan(5, 2);
    forall c | InWindow(c, rows, cols) ensures c in Level5(4, 2) {
      CodeCases(c);
    }
  }

  lemma Level5Row4Col3Covers()
    ensures Covers(Level5(4, 3), ClassSpan(5, 4), ClassSpan(5, 3))
  {
    var rows, cols := ClassSpan(5, 4), ClassSpan(5, 3);
    forall c | InWindow(c, rows, cols) ensures c in Level5(4, 3) {
      CodeCases(c);
    }
  }

  lemma Level5Row4Col4Covers()
    ensures Covers(Level5(4, 4), ClassSpan(5, 4), ClassSpan(5, 4))
  {
    var rows, cols := ClassSpan(5, 4), ClassSpan(5, 4);
    forall c | InWindow(c, rows, cols) ensures c in Level5(4, 4) {
      CodeCases(c);
    }
  }

  lemma Level7Covers(rowClass: nat, colClass: nat)
    requires rowClass <= 6 && colClass <= 6
    ensures Covers(Level7(rowClass, colClass), ClassSpan(7, rowClass), ClassSpan(7, colClass))
  {
    if rowClass == 0 {
      Level7Row0Covers(colClass);
    } else if rowClass == 1 {
      Level7Row1Covers(colClass);
    } else if rowClass == 2 {
      Level7Row2Covers(colClass);
    } else if rowClass == 3 {
      Level7Row3Covers(colClass);
    } else if rowClass == 4 {
      Level7Row4Covers(colClass);
    } else if rowClass == 5 {
      Level7Row5Covers(colClass);
    } else {
      Level7Row6Covers(colClass);
    }
  }

  lemma Level7Row0Covers(colClass: nat)
    requires colClass <= 6
    ensures Covers(Level7(0, colClass), ClassSpan(7, 0), ClassSpan(7, colClass))
  {
    if colClass == 0 {
      Level7Row0Col0Covers();
    } else if colClass == 1 {
      Level7Row0Col1Covers();
    } else if colClass == 2 {
      Level7Row0Col2Covers();
    } else if colClass == 3 {
      Level7Row0Col3Covers();
    } else if colClass == 4 {
      Level7Row0Col4Covers();
    } else if colClass == 5 {
      Level7Row0Col5Covers();
    } else {
      Level7Row0Col6Covers();
    }
  }

  lemma Level7Row0Col0Covers()
    ensures Covers(Level7(0, 0), ClassSpan(7, 0), ClassSpan(7, 0))
  {
    var rows, cols := ClassSpan(7, 0), ClassSpan(7, 0);
    forall c | InWindow(c, rows, cols) ensures c in Level7(0, 0) {
      CodeCases(c);
    }
  }

  lemma Level7Row0Col1Covers()
    ensures Covers(Level7(0, 1), ClassSpan(7, 0), ClassSpan(7, 1))
  {
    var rows, cols := ClassSpan(7, 0), ClassSpan(7, 1);
    forall c | InWindow(c, rows, cols) ensures c in Level7(0, 1) {
      CodeCases(c);
    }
  }

  lemma Level7Row0Col2Covers()
    ensures Covers(Level7(0, 2), ClassSpan(7, 0), ClassSpan(7, 2))
  {
    var rows, cols := ClassSpan(7, 0), ClassSpan(7, 2);
    forall c | InWindow(c, rows, cols) ensures c in Level7(0, 2) {
      CodeCases(c);
    }
  }

  lemma Level7Row0Col3Covers()
    ensures Covers(Level7(0, 3), ClassSpan(7, 0), ClassSpan(7, 3))
  {
    var rows, cols := ClassSpan(7, 0), ClassSpan(7, 3);
    forall c | InWindow(c, rows, cols) ensures c in Level7(0, 3) {
      CodeCases(c);
    }
  }

  lemma Level7Row0Col4Covers()
    ensures Covers(Level7(0, 4), ClassSpan(7, 0), ClassSpan(7, 4))
  {
    var rows, cols := ClassSpan(7, 0), ClassSpan(7, 4);
    forall c | InWindow(c, rows, cols) ensures c in Level7(0, 4) {
      CodeCases(c);
    }
  }

  lemma Level7Row0Col5Covers()
    ensures Covers(Level7(0, 5), ClassSpan(7, 0), ClassSpan(7, 5))
  {
    var rows, cols := ClassSpan(7, 0), ClassSpan(7, 5);
    forall c | InWindow(c, rows, cols) ensures c in Level7(0, 5) {
      CodeCases(c);
    }
  }

  lemma Level7Row0Col6Covers()
    ensures Covers(Level7(0, 6), ClassSpan(7, 0), ClassSpan(7, 6))
  {
    var rows, cols := ClassSpan(7, 0), ClassSpan(7, 6);
    forall c | InWindow(c, rows, cols) ensures c in Level7(0, 6) {
      CodeCases(c);
    }
  }

  lemma Level7Row1Covers(colClass: nat)
    requires colClass <= 6
    ensures Covers(Level7(1, colClass), ClassSpan(7, 1), ClassSpan(7, colClass))
  {
    if colClass == 0 {
      Level7Row1Col0Covers();
    } else if colClass == 1 {
      Level7Row1Col1Covers();
    } else if colClass == 2 {
      Level7Row1Col2Covers();
    } else if colClass == 3 {
      Level7Row1Col3Covers();
    } else if colClass == 4 {
      Level7Row1Col4Covers();
    } else if colClass == 5 {
      Level7Row1Col5Covers();
    } else {
      Level7Row1Col6Covers();
    }
  }

  lemma Level7Row1Col0Covers()
    ensures Covers(Level7(1, 0), ClassSpan(7, 1), ClassSpan(7, 0))
  {
    var rows, cols := ClassSpan(7, 1), ClassSpan(7, 0);
    forall c | InWindow(c, rows, cols) ensures c in Level7(1, 0) {
      CodeCases(c);
    }
  }

  lemma Level7Row1Col1Covers()
    ensures Covers(Level7(1, 1), ClassSpan(7, 1), ClassSpan(7, 1))
  {
    var rows, cols := ClassSpan(7, 1), ClassSpan(7, 1);
    forall c | InWindow(c, rows, cols) ensures c in Level7(1, 1) {
      CodeCases(c);
    }
  }

  lemma Level7Row1Col2Covers()
    ensures Covers(Level7(1, 2), ClassSpan(7, 1), ClassSpan(7, 2))
  {
    var rows, cols := ClassSpan(7, 1), ClassSpan(7, 2);
    forall c | InWindow(c, rows, cols) ensures c in Level7(1, 2) {
      CodeCases(c);
    }
  }

  lemma Level7Row1Col3Covers()
    ensures Covers(Level7(1, 3), ClassSpan(7, 1), ClassSpan(7, 3))
  {
    var rows, cols := ClassSpan(7, 1), ClassSpan(7, 3);
    forall c | InWindow(c, rows, cols) ensures c in Level7(1, 3) {
      CodeCases(c);
    }
  }

  lemma Level7Row1Col4Covers()
    ensures Covers(Level7(1, 4), ClassSpan(7, 1), ClassSpan(7, 4))
  {
    var rows, cols := ClassSpan(7, 1), ClassSpan(7, 4);
    forall c | InWindow(c, rows, cols) ensures c in Level7(1, 4) {
      CodeCases(c);
    }
  }

  lemma Level7Row1Col5Covers()
    ensures Covers(Level7(1, 5), ClassSpan(7, 1), ClassSpan(7, 5))
  {
    var rows, cols := ClassSpan(7, 1), ClassSpan(7, 5);
    forall c | InWindow(c, rows, cols) ensures c in Level7(1, 5) {
      CodeCases(c);
    }
  }

  lemma Level7Row1Col6Covers()
    ensures Covers(Level7(1, 6), ClassSpan(7, 1), ClassSpan(7, 6))
  {
    var rows, cols := ClassSpan(7, 1), ClassSpan(7, 6);
    forall c | InWindow(c, rows, cols) ensures c in Level7(1, 6) {
      CodeCases(c);
    }
  }

  lemma Level7Row2Covers(colClass: nat)
    requires colClass <= 6
    ensures Covers(Level7(2, colClass), ClassSpan(7, 2), ClassSpan(7, colClass))
  {
    if colClass == 0 {
      Level7Row2Col0Covers();
    } else if colClass == 1 {
      Level7Row2Col1Covers();
    } else if colClass == 2 {
      Level7Row2Col2Covers();
    } else if colClass == 3 {
      Level7Row2Col3Covers();
    } else if colClass == 4 {
      Level7Row2Col4Covers();
    } else if colClass == 5 {
      Level7Row2Col5Covers();
    } else {
      Level7Row2Col6Covers();
    }
  }

  lemma Level7Row2Col0Covers()
    ensures Covers(Level7(2, 0), ClassSpan(7, 2), ClassSpan(7, 0))
  {
    var rows, cols := ClassSpan(7, 2), ClassSpan(7, 0);
    forall c | InWindow(c, rows, cols) ensures c in Level7(2, 0) {
      CodeCases(c);
    }
  }

  lemma Level7Row2Col1Covers()
    ensures Covers(Level7(2, 1), ClassSpan(7, 2), ClassSpan(7, 1))
  {
    var rows, cols := ClassSpan(7, 2), ClassSpan(7, 1);
    forall c | InWindow(c, rows, cols) ensures c in Level7(2, 1) {
      CodeCases(c);
    }
  }

  lemma Level7Row2Col2Covers()
    ensures Covers(Level7(2, 2), ClassSpan(7, 2), ClassSpan(7, 2))
  {
    var rows, cols := ClassSpan(7, 2), ClassSpan(7, 2);
    forall c | InWindow(c, rows, cols) ensures c in Level7(2, 2) {
      CodeCases(c);
    }
  }

  lemma Level7Row2Col3Covers()
    ensures Covers(Level7(2, 3), ClassSpan(7, 2), ClassSpan(7, 3))
  {
    var rows, cols := ClassSpan(7, 2), ClassSpan(7, 3);
    forall c | InWindow(c, rows, cols) ensures c in Level7(2, 3) {
      CodeCases(c);
    }
  }

  lemma Level7Row2Col4Covers()
    ensures Covers(Level7(2, 4), ClassSpan(7, 2), ClassSpan(7, 4))
  {
    var rows, cols := ClassSpan(7, 2), ClassSpan(7, 4);
    forall c | InWindow(c, rows, cols) ensures c in Level7(2, 4) {
      CodeCases(c);
    }
  }

  lemma Level7Row2Col5Covers()
    ensures Covers(Level7(2, 5), ClassSpan(7, 2), ClassSpan(7, 5))
  {
    var rows, cols := ClassSpan(7, 2), ClassSpan(7, 5);
    forall c | InWindow(c, rows, cols) ensures c in Level7(2, 5) {
      CodeCases(c);
    }
  }

  lemma Level7Row2Col6Covers()
    ensures Covers(Level7(2, 6), ClassSpan(7, 2), ClassSpan(7, 6))
  {
    var rows, cols := ClassSpan(7, 2), ClassSpan(7, 6);
    forall c | InWindow(c, rows, cols) ensures c in Level7(2, 6) {
      CodeCases(c);
    }
  }

  lemma Level7Row3Covers(colClass: nat)
    requires colClass <= 6
    ensures Covers(Level7(3, colClass), ClassSpan(7, 3), ClassSpan(7, colClass))
  {
    if colClass == 0 {
      Level7Row3Col0Covers();
    } else if colClass == 1 {
      Level7Row3Col1Covers();
    } else if colClass == 2 {
      Level7Row3Col2Covers();
    } else if colClass == 3 {
      Level7Row3Col3Covers();
    } else if colClass == 4 {
      Level7Row3Col4Covers();
    } else if colClass == 5 {
      Level7Row3Col5Covers();
    } else {
      Level7Row3Col6Covers();
    }
  }

  lemma Level7Row3Col0Covers()
    ensures Covers(Level7(3, 0), ClassSpan(7, 3), ClassSpan(7, 0))
  {
    var rows, cols := ClassSpan(7, 3), ClassSpan(7, 0);
    forall c | InWindow(c, rows, cols) ensures c in Level7(3, 0) {
      CodeCases(c);
    }
  }

  lemma Level7Row3Col1Covers()
    ensures Covers(Level7(3, 1), ClassSpan(7, 3), ClassSpan(7, 1))
  {
    var rows, cols := ClassSpan(7, 3), ClassSpan(7, 1);
    forall c | InWindow(c, rows, cols) ensures c in Level7(3, 1) {
      CodeCases(c);
    }
  }

  lemma Level7Row3Col2Covers()
    ensures Covers(Level7(3, 2), ClassSpan(7, 3), ClassSpan(7, 2))
  {
    var rows, cols := ClassSpan(7, 3), ClassSpan(7, 2);
    forall c | InWindow(c, rows, cols) ensures c in Level7(3, 2) {
      CodeCases(c);
    }
  }

  lemma Level7Row3Col3Covers()
    ensures Covers(Level7(3, 3), ClassSpan(7, 3), ClassSpan(7, 3))
  {
    var rows, cols := ClassSpan(7, 3), ClassSpan(7, 3);
    forall c | InWindow(c, rows, cols) ensures c in Level7(3, 3) {
      CodeCases(c);
    }
  }

  lemma Level7Row3Col4Covers()
    ensures Covers(Level7(3, 4), ClassSpan(7, 3), ClassSpan(7, 4))
  {
    var rows, cols := ClassSpan(7, 3), ClassSpan(7, 4);
    forall c | InWindow(c, rows, cols) ensures c in Level7(3, 4) {
      CodeCases(c);
    }
  }

  lemma Level7Row3Col5Covers()
    ensures Covers(Level7(3, 5), ClassSpan(7, 3), ClassSpan(7, 5))
  {
    var rows, cols := ClassSpan(7, 3), ClassSpan(7, 5);
    forall c | InWindow(c, rows, cols) ensures c in Level7(3, 5) {
      CodeCases(c);
    }
  }

  lemma Level7Row3Col6Covers()
    ensures Covers(Level7(3, 6), ClassSpan(7, 3), ClassSpan(7, 6))
  {
    var rows, cols := ClassSpan(7, 3), ClassSpan(7, 6);
    forall c | InWindow(c, rows, cols) ensures c in Level7(3, 6) {
      CodeCases(c);
    }
  }

  lemma Level7Row4Covers(colClass: nat)
    requires colClass <= 6
    ensures Covers(Level7(4, colClass), ClassSpan(7, 4), ClassSpan(7, colClass))
  {
    if colClass == 0 {
      Level7Row4Col0Covers();
    } else if colClass == 1 {
      Level7Row4Col1Covers();
    } else if colClass == 2 {
      Level7Row4Col2Covers();
    } else if colClass == 3 {
      Level7Row4Col3Covers();
    } else if colClass == 4 {
      Level7Row4Col4Covers();
    } else if colClass == 5 {
      Level7Row4Col5Covers();
    } else {
      Level7Row4Col6Covers();
    }
  }

  lemma Level7Row4Col0Covers()
    ensures Covers(Level7(4, 0), ClassSpan(7, 4), ClassSpan(7, 0))
  {
    var rows, cols := ClassSpan(7, 4), ClassSpan(7, 0);
    forall c | InWindow(c, rows, cols) ensures c in Level7(4, 0) {
      CodeCases(c);
    }
  }

  lemma Level7Row4Col1Covers()
    ensures Covers(Level7(4, 1), ClassSpan(7, 4), ClassSpan(7, 1))
  {
    var rows, cols := ClassSpan(7, 4), ClassSpan(7, 1);
    forall c | InWindow(c, rows, cols) ensures c in Level7(4, 1) {
      CodeCases(c);
    }
  }

  lemma Level7Row4Col2Covers()
    ensures Covers(Level7(4, 2), ClassSpan(7, 4), ClassSpan(7, 2))
  {
    var rows, cols := ClassSpan(7, 4), ClassSpan(7, 2);
    forall c | InWindow(c, rows, cols) ensures c in Level7(4, 2) {
      CodeCases(c);
    }
  }

  lemma Level7Row4Col3Covers()
    ensures Covers(Level7(4, 3), ClassSpan(7, 4), ClassSpan(7, 3))
  {
    var rows, cols := ClassSpan(7, 4), ClassSpan(7, 3);
    forall c | InWindow(c, rows, cols) ensures c in Level7(4, 3) {
      CodeCases(c);
    }
  }

  lemma Level7Row4Col4Covers()
    ensures Covers(Level7(4, 4), ClassSpan(7, 4), ClassSpan(7, 4))
  {
    var rows, cols := ClassSpan(7, 4), ClassSpan(7, 4);
    forall c | InWindow(c, rows, cols) ensures c in Level7(4, 4) {
      CodeCases(c);
    }
  }

  lemma Level7Row4Col5Covers()
    ensures Covers(Level7(4, 5), ClassSpan(7, 4), ClassSpan(7, 5))
  {
    var rows, cols := ClassSpan(7, 4), ClassSpan(7, 5);
    forall c | InWindow(c, rows, cols) ensures c in Level7(4, 5) {
      CodeCases(c);
    }
  }

  lemma Level7Row4Col6Covers()
    ensures Covers(Level7(4, 6), ClassSpan(7, 4), ClassSpan(7, 6))
  {
    var rows, cols := ClassSpan(7, 4), ClassSpan(7, 6);
    forall c | InWindow(c, rows, cols) ensures c in Level7(4, 6) {
      CodeCases(c);
    }
  }

  lemma Level7Row5Covers(colClass: nat)
    requires colClass <= 6
    ensures Covers(Level7(5, colClass), ClassSpan(7, 5), ClassSpan(7, colClass))
  {
    if colClass == 0 {
      Level7Row5Col0Covers();
    } else if colClass == 1 {
      Level7Row5Col1Covers();
    } else if colClass == 2 {
      Level7Row5Col2Covers();
    } else if colClass == 3 {
      Level7Row5Col3Covers();
    } else if colClass == 4 {
      Level7Row5Col4Covers();
    } else if colClass == 5 {
      Level7Row5Col5Covers();
    } else {
      Level7Row5Col6Covers();
    }
  }

  lemma Level7Row5Col0Covers()
    ensures Covers(Level7(5, 0), ClassSpan(7, 5), ClassSpan(7, 0))
  {
    var rows, cols := ClassSpan(7, 5), ClassSpan(7, 0);
    forall c | InWindow(c, rows, cols) ensures c in Level7(5, 0) {
      CodeCases(c);
    }
  }

  lemma Level7Row5Col1Covers()
    ensures Covers(Level7(5, 1), ClassSpan(7, 5), ClassSpan(7, 1))
  {
    var rows, cols := ClassSpan(7, 5), ClassSpan(7, 1);
    forall c | InWindow(c, rows, cols) ensures c in Level7(5, 1) {
      CodeCases(c);
    }
  }

  lemma Level7Row5Col2Covers()
    ensures Covers(Level7(5, 2), ClassSpan(7, 5), ClassSpan(7, 2))
  {
    var rows, cols := ClassSpan(7, 5), ClassSpan(7, 2);
    forall c | InWindow(c, rows, cols) ensures c in Level7(5, 2) {
      CodeCases(c);
    }
  }

  lemma Level7Row5Col3Covers()
    ensures Covers(Level7(5, 3), ClassSpan(7, 5), ClassSpan(7, 3))
  {
    var rows, cols := ClassSpan(7, 5), ClassSpan(7, 3);
    forall c | InWindow(c, rows, cols) ensures c in Level7(5, 3) {
      CodeCases(c);
    }
  }

  lemma Level7Row5Col4Covers()
    ensures Covers(Level7(5, 4), ClassSpan(7, 5), ClassSpan(7, 4))
  {
    var rows, cols := ClassSpan(7, 5), ClassSpan(7, 4);
    forall c | InWindow(c, rows, cols) ensures c in Level7(5, 4) {
      CodeCases(c);
    }
  }

  lemma Level7Row5Col5Covers()
    ensures Covers(Level7(5, 5), ClassSpan(7, 5), ClassSpan(7, 5))
  {
    var rows, cols := ClassSpan(7, 5), ClassSpan(7, 5);
    forall c | InWindow(c, rows, cols) ensures c in Level7(5, 5) {
      CodeCases(c);
    }
  }

  lemma Level7Row5Col6Covers()
    ensures Covers(Level7(5, 6), ClassSpan(7, 5), ClassSpan(7, 6))
  {
    var rows, cols := ClassSpan(7, 5), ClassSpan(7, 6);
    forall c | InWindow(c, rows, cols) ensures c in Level7(5, 6) {
      CodeCases(c);
    }
  }

  lemma Level7Row6Covers(colClass: nat)
    requires colClass <= 6
    ensures Covers(Level7(6, colClass), ClassSpan(7, 6), ClassSpan(7, colClass))
  {
    if colClass == 0 {
      Level7Row6Col0Covers();
    } else if colClass == 1 {
      Level7Row6Col1Covers();
    } else if colClass == 2 {
      Level7Row6Col2Covers();
    } else if colClass == 3 {
      Level7Row6Col3Covers();
    } else if colClass == 4 {
      Level7Row6Col4Covers();
    } else if colClass == 5 {
      Level7Row6Col5Covers();
    } else {
      Level7Row6Col6Covers();
    }
  }

  lemma Level7Row6Col0Covers()
    ensures Covers(Level7(6, 0), ClassSpan(7, 6), ClassSpan(7, 0))
  {
    var rows, cols := ClassSpan(7, 6), ClassSpan(7, 0);
    forall c | InWindow(c, rows, cols) ensures c in Level7(6, 0) {
      CodeCases(c);
    }
  }

  lemma Level7Row6Col1Covers()
    ensures Covers(Level7(6, 1), ClassSpan(7, 6), ClassSpan(7, 1))
  {
    var rows, cols := ClassSpan(7, 6), ClassSpan(7, 1);
    forall c | InWindow(c, rows, cols) ensures c in Level7(6, 1) {
      CodeCases(c);
    }
  }

  lemma Level7Row6Col2Covers()
    ensures Covers(Level7(6, 2), ClassSpan(7, 6), ClassSpan(7, 2))
  {
    var rows, cols := ClassSpan(7, 6), ClassSpan(7, 2);
    forall c | InWindow(c, rows, cols) ensures c in Level7(6, 2) {
      CodeCases(c);
    }
  }

  lemma Level7Row6Col3Covers()
    ensures Covers(Level7(6, 3), ClassSpan(7, 6), ClassSpan(7, 3))
  {
    var rows, cols := ClassSpan(7, 6), ClassSpan(7, 3);
    forall c | InWindow(c, rows, cols) ensures c in Level7(6, 3) {
      CodeCases(c);
    }
  }

  lemma Level7Row6Col4Covers()
    ensures Covers(Level7(6, 4), ClassSpan(7, 6), ClassSpan(7, 4))
  {
    var rows, cols := ClassSpan(7, 6), ClassSpan(7, 4);
    forall c | InWindow(c, rows, cols) ensures c in Level7(6, 4) {
      CodeCases(c);
    }
  }

  lemma Level7Row6Col5Covers()
    ensures Covers(Level7(6, 5), ClassSpan(7, 6), ClassSpan(7, 5))
  {
    var rows, cols := ClassSpan(7, 6), ClassSpan(7, 5);
    forall c | InWindow(c, rows, cols) ensures c in Level7(6, 5) {
      CodeCases(c);
    }
  }

  lemma Level7Row6Col6Covers()
    ensures Covers(Level7(6, 6), ClassSpan(7, 6), ClassSpan(7, 6))
  {
    var rows, cols := ClassSpan(7, 6), ClassSpan(7, 6);
    forall c | InWindow(c, rows, cols) ensures c in Level7(6, 6) {
      CodeCases(c);
    }
  }

}
