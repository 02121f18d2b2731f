// The public About page: the loaded messages, careers, projects and intro,
// and the project carousel's columns, index and arrows.
module About {
  import opened Wrappers
  import opened Periods
  import Cards

  const MessageCap := 3
  const MobileWidth := 768

  datatype AboutMessage = AboutMessage(id: int, title: string, content: string)

  /** `Math.max(0, n - cols)`: the last position the carousel can start at. */
  function MaxIndex(n: nat, cols: nat): (r: nat)
    ensures r + cols >= n
    ensures n > cols ==> r == n - cols
    ensures n <= cols ==> r == 0
  {
    if n > cols then n - cols else 0
  }

  /** The left arrow: one position back, never below 0. */
  function PrevIndex(i: int): (r: int)
    ensures r >= 0
    ensures i >= 1 ==> r == i - 1
    ensures i < 1 ==> r == 0
  {
    if i - 1 > 0 then i - 1 else 0
  }

  /** The right arrow: one position on, never past maxIndex. */
  function NextIndex(i: int, maxIndex: nat): (r: int)
    ensures r <= maxIndex
    ensures i < maxIndex ==> r == i + 1
    ensures i >= maxIndex ==> r == maxIndex
  {
    if maxIndex < i + 1 then maxIndex else i + 1
  }

  /** Starting in range, any arrow keeps the index in range, and an enabled
      arrow moves it by exactly one. */
  lemma ArrowsStayInRange(i: int, maxIndex: nat)
    requires 0 <= i <= maxIndex
    ensures 0 <= PrevIndex(i) <= maxIndex && 0 <= NextIndex(i, maxIndex) <= maxIndex
    ensures i > 0 ==> PrevIndex(i) == i - 1
    ensures i < maxIndex ==> NextIndex(i, maxIndex) == i + 1
  {
  }

  /** The indicator buttons for n projects in `cols` columns: none unless the
      projects overflow the columns and maxIndex >= 1, else one per start
      position 0..maxIndex. */
  function Indicators(n: nat, cols: nat): (r: seq<nat>)
    ensures r != [] <==> n > cols && MaxIndex(n, cols) >= 1
    ensures r != [] ==> |r| == MaxIndex(n, cols) + 1
    ensures forall k :: 0 <= k < |r| ==> r[k] == k
  {
    var maxIndex := MaxIndex(n, cols);
    if n > cols && maxIndex >= 1 then seq(maxIndex + 1, k requires 0 <= k <= maxIndex => k)
    else []
  }

  /** The carousel's columns for the window width. */
  function Columns(windowWidth: int): (r: nat)
    ensures r == 1 <==> windowWidth < MobileWidth
    ensures r == 1 || r == 3
  {
    if windowWidth < MobileWidth then 1 else 3
  }

  class AboutPage {
    var messages: seq<AboutMessage>
    var careers: seq<CareerItem>
    var projects: seq<Cards.CardProject>
    var intro: string
    var careerModalOpen: bool
    var carouselIndex: int
    var cols: nat

    constructor ()
      ensures messages == [] && careers == [] && projects == [] && intro == []
      ensures !careerModalOpen && carouselIndex == 0 && cols == 3
    {
      messages := [];
      careers := [];
      projects := [];
      intro := [];
      careerModalOpen := false;
      carouselIndex := 0;
      cols := 3;
    }

    function Max(): nat
      reads this
    {
      MaxIndex(|projects|, cols)
    }

    /** The index lies within [0, maxIndex]. */
    predicate InRange()
      reads this
    {
      0 <= carouselIndex <= Max()
    }

    predicate CanPrev()
      reads this
    {
      carouselIndex > 0
    }

    predicate CanNext()
      reads this
    {
      carouselIndex < Max()
    }

    /** The arrows are rendered only when the projects do not all fit. */
    predicate ArrowsShown()
      reads this
    {
      |projects| > cols
    }

    predicate IndicatorsShown()
      reads this
    {
      |projects| > cols && Max() >= 1
    }

    /** The page's five requests together: `failed` when any of them
        rejected (nothing is set), else each result is used only when it
        has the expected shape (None where it does not). */
    method Loaded(failed: bool, msgData: Option<seq<AboutMessage>>, projData: Option<seq<Cards.CardProject>>,
                  careerData: Option<seq<CareerItem>>, introData: Option<string>)
      modifies this`messages, this`projects, this`careers, this`intro
      ensures failed || msgData.None? ==> messages == old(messages)
      ensures !failed && msgData.Some? ==> Cards.Cut(messages, msgData.value, MessageCap)
      ensures failed || projData.None? ==> projects == old(projects)
      ensures !failed && projData.Some? ==> projects == projData.value
      ensures failed || careerData.None? ==> careers == old(careers)
      ensures !failed && careerData.Some? ==> careers == SortLatestFirst(careerData.value)
      ensures failed || introData.None? ==> intro == old(intro)
      ensures !failed && introData.Some? ==> intro == introData.value
    {
      if failed {
        return;
      }
      if msgData.Some? {
        messages := if |msgData.value| <= MessageCap then msgData.value else msgData.value[..MessageCap];
      }
      if projData.Some? {
        projects := projData.value;
      }
      if careerData.Some? {
        careers := SortLatestFirst(careerData.value);
      }
      if introData.Some? {
        intro := introData.value;
      }
    }

    /** The resize handler, which runs only while there are projects; the
        index is left as it is. */
    method Resize(windowWidth: int)
      modifies this`cols
      ensures projects == [] ==> cols == old(cols)
      ensures projects != [] ==> cols == Columns(windowWidth)
    {
      if |projects| == 0 {
        return;
      }
      cols := Columns(windowWidth);
    }

    method Prev()
      modifies this`carouselIndex
      ensures carouselIndex == PrevIndex(old(carouselIndex))
      ensures old(InRange()) ==> InRange()
      ensures old(CanPrev()) ==> carouselIndex == old(carouselIndex) - 1
    {
      carouselIndex := PrevIndex(carouselIndex);
    }

    method Next()
      modifies this`carouselIndex
      ensures carouselIndex == NextIndex(old(carouselIndex), Max())
      ensures old(InRange()) ==> InRange()
      ensures old(CanNext()) ==> carouselIndex == old(carouselIndex) + 1
    {
      carouselIndex := NextIndex(carouselIndex, Max());
    }

    /** An indicator button; they exist for 0..maxIndex only. */
    method Indicator(i: nat)
      requires i <= Max()
      modifies this`carouselIndex
      ensures carouselIndex == i && InRange()
    {
      carouselIndex := i;
    }

    method OpenCareers()
      modifies this`careerModalOpen
      ensures careerModalOpen
    {
      careerModalOpen := true;
    }

    method CloseCareers()
      modifies this`careerModalOpen
      ensures !careerModalOpen
    {
      careerModalOpen := false;
    }
  }

  /** The resize leaves the index alone: with five projects on one column
      at the last position, widening the window to three columns leaves the
      index past the new maxIndex. */
  lemma ResizeKeepsStaleIndex()
    ensures var n, i := 5, 4;
      0 <= i <= MaxIndex(n, Columns(0)) && i > MaxIndex(n, Columns(MobileWidth))
  {
  }
}
