/** The parameter block in the source's own form: initialisation overwrites its fields in place. */
module ParamsContext {
  import opened CanTpTypes
  import Spec = ParamsSpec

  class Params {
    var blockSize: byte
    var stMinUs: Spec.uint32
    var stMin: byte
    var wftNum: byte
    var wftMax: byte
    var wftTimUs: Spec.uint32

    ghost function View(): Spec.Params
      reads this
    {
      Spec.Params(blockSize, stMinUs, stMin, wftNum, wftMax, wftTimUs)
    }

    constructor (blockSize: byte, stMinUs: Spec.uint32, wftMax: byte, wftTimUs: Spec.uint32)
      ensures View() == Spec.Params(blockSize, stMinUs, 0, 0, wftMax, wftTimUs)
    {
      this.blockSize, this.stMinUs, this.wftMax, this.wftTimUs := blockSize, stMinUs, wftMax, wftTimUs;
      stMin, wftNum := 0, 0;
    }

    method RcvrParamsInit() returns (r: int)
      modifies this
      ensures View() == Spec.Init(old(View())).0
      ensures r == if Spec.Init(old(View())).1 then 0 else -1
      ensures old(wftNum) == 0 ==> Spec.WaitsNeedSmallBlocks(View())
      ensures r == 0 || r == -1
      ensures r == 0 <==> old(stMinUs) == 0 || 100 <= old(stMinUs) <= 127000
                          || (old(stMinUs) > 127000 && wftTimUs >= 127000
                              && old(stMinUs) / wftTimUs % 256 <= wftMax)
      ensures wftTimUs == old(wftTimUs) && wftMax == old(wftMax)
    {
      if stMinUs == 0 {
        stMin := 0;
      } else if stMinUs < 100 {
        return -1;
      } else if stMinUs > 127000 {
        blockSize := 1;
        stMin := 0;
        if wftTimUs < 127000 {
          return -1;
        }
        wftNum := stMinUs / wftTimUs % 256;
        if wftNum > wftMax {
          return -1;
        }
      } else if stMinUs > 900 && stMinUs < 1000 {
        if stMinUs >= 950 {
          stMinUs := 1000;
        } else {
          stMinUs := 900;
        }
      } else if stMinUs >= 1000 && stMinUs <= 127000 {
        stMin := stMinUs / 1000;
      } else if stMinUs <= 900 {
        stMin := (stMinUs / 100 + 0xf0) % 256;
      }
      return 0;
    }
  }
}
