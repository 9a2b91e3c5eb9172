/**
 * BoardManager: the list of LED driver boards, appended to by add_board and
 * searched front to back by get_board.
 */
module Registry {
  import opened Wrappers
  import opened Devices

  /** What get_board produces: the board, `None`, or the IndexError raised by
      `self.controllers[controller_index]`. */
  datatype Lookup = Found(board: DriverBoard) | NotFound | BadIndex

  /** Python list indexing: an index in `[-len, len)` selects an element,
      negative ones counted from the end; anything else raises IndexError. */
  function PyIndex(len: nat, i: int): (r: Option<nat>)
    ensures r.Some? <==> 0 <= len + i && i < len
    ensures r.Some? ==> r.value < len && (r.value == i || r.value == len + i)
  {
    if 0 <= i < len then Some(i)
    else if 0 <= len + i && i < 0 then Some(len + i)
    else None
  }

  predicate Matches(b: DriverBoard, controller: Controller, addr: int)
  {
    b.controller == controller && b.addr == addr
  }

  /** The first board on the controller at the address. */
  function FirstMatch(boards: seq<DriverBoard>, controller: Controller, addr: int): (r: Lookup)
    ensures !r.BadIndex?
  {
    if boards == [] then NotFound
    else if Matches(boards[0], controller, addr) then Found(boards[0])
    else FirstMatch(boards[1..], controller, addr)
  }

  /** FirstMatch finds nothing exactly when no board matches, and otherwise
      the matching board with no matching board before it. */
  lemma {:induction false} FirstMatchSpec(boards: seq<DriverBoard>, controller: Controller, addr: int)
    ensures var r := FirstMatch(boards, controller, addr);
      && (r.NotFound? <==> forall k :: 0 <= k < |boards| ==> !Matches(boards[k], controller, addr))
      && (r.Found? ==>
            exists k :: (0 <= k < |boards| && boards[k] == r.board
              && Matches(boards[k], controller, addr)
              && forall k' :: 0 <= k' < k ==> !Matches(boards[k'], controller, addr)))
  {
    if boards != [] && !Matches(boards[0], controller, addr) {
      var rest := boards[1..];
      FirstMatchSpec(rest, controller, addr);
      assert forall k :: 1 <= k < |boards| ==> boards[k] == rest[k - 1];
      var r := FirstMatch(rest, controller, addr);
      if r.Found? {
        var k :| 0 <= k < |rest| && rest[k] == r.board
          && Matches(rest[k], controller, addr)
          && forall k' :: 0 <= k' < k ==> !Matches(rest[k'], controller, addr);
        assert boards[k + 1] == r.board;
        assert forall k' :: 0 <= k' < k + 1 ==> !Matches(boards[k'], controller, addr) by {
          forall k' | 0 <= k' < k + 1 ensures !Matches(boards[k'], controller, addr) {
            if k' > 0 { assert boards[k'] == rest[k' - 1]; }
          }
        }
      }
    }
  }

  /** get_board's result for the registry's boards and controllers. The
      controller index is only evaluated inside the loop, so with no boards
      a bad index does not raise. */
  function BoardFor(boards: seq<DriverBoard>, controllers: seq<Controller>, i: int, addr: int): Lookup
  {
    if |boards| == 0 then NotFound
    else match PyIndex(|controllers|, i)
      case None => BadIndex
      case Some(k) => FirstMatch(boards, controllers[k], addr)
  }

  /** get_board raises exactly for an out-of-range controller index with
      at least one board registered, and finds nothing only when no board
      on the indexed controller has the address. */
  lemma BoardForSpec(boards: seq<DriverBoard>, controllers: seq<Controller>, i: int, addr: int)
    ensures var r := BoardFor(boards, controllers, i, addr);
      && (r.BadIndex? <==> |boards| > 0 && !(0 <= |controllers| + i < 2 * |controllers|))
      && (r.NotFound? && 0 <= |controllers| + i < 2 * |controllers| ==>
            forall k :: 0 <= k < |boards| ==> !Matches(boards[k], controllers[PyIndex(|controllers|, i).value], addr))
  {
    if |boards| > 0 && PyIndex(|controllers|, i).Some? {
      FirstMatchSpec(boards, controllers[PyIndex(|controllers|, i).value], addr);
    }
  }

  /** Appending a board changes a lookup only where nothing matched before. */
  lemma {:induction false} FirstMatchAppend(boards: seq<DriverBoard>, b: DriverBoard, controller: Controller, addr: int)
    ensures FirstMatch(boards + [b], controller, addr) ==
      if FirstMatch(boards, controller, addr).Found? then FirstMatch(boards, controller, addr)
      else if Matches(b, controller, addr) then Found(b)
      else NotFound
  {
    if boards != [] {
      assert (boards + [b])[1..] == boards[1..] + [b];
      FirstMatchAppend(boards[1..], b, controller, addr);
    }
  }

  class BoardManager {
    const controllers: seq<Controller>
    var boards: seq<DriverBoard>

    constructor (controllers: seq<Controller>)
      ensures this.controllers == controllers && boards == []
    {
      this.controllers := controllers;
      boards := [];
    }

    /** add_board: a new board for (controller, addr), appended. */
    method AddBoard(controller: Controller, addr: int)
      modifies this
      ensures |boards| == |old(boards)| + 1 && boards[..|old(boards)|] == old(boards)
      ensures fresh(boards[|old(boards)|])
      ensures boards[|old(boards)|].controller == controller && boards[|old(boards)|].addr == addr
    {
      var board := new DriverBoard(controller, addr);
      boards := boards + [board];
    }

    /** get_board: the first board on `controllers[controller_index]` at `addr`. */
    method GetBoard(controllerIndex: int, addr: int) returns (r: Lookup)
      ensures r == BoardFor(boards, controllers, controllerIndex, addr)
    {
      for k := 0 to |boards|
        invariant k > 0 ==> PyIndex(|controllers|, controllerIndex).Some?
        invariant k > 0 ==>
          (BoardFor(boards, controllers, controllerIndex, addr)
           == FirstMatch(boards[k..], controllers[PyIndex(|controllers|, controllerIndex).value], addr))
      {
        var index := PyIndex(|controllers|, controllerIndex);
        if index.None? {
          return BadIndex;
        }
        var controller := controllers[index.value];
        assert boards[k..][1..] == boards[k + 1..];
        if boards[k].controller == controller && boards[k].addr == addr {
          return Found(boards[k]);
        }
      }
      if |boards| > 0 {
        assert boards[|boards|..] == [];
      }
      r := NotFound;
    }
  }
}
