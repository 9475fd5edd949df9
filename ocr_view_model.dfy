/**
 * The OCR view model: the token check before a capture, the reaction to
 * the captured image (PNG conversion, the request), and the reaction to
 * the reply. resultText and debouncedResultText live in the debounce
 * pipeline; each main-queue hop is taken to have run by the time a method
 * returns. The closure handed to the capture controller is `CaptureEnded`;
 * the data task's completion is `ResponseArrived`.
 */
module ViewModel {
  import opened Wrappers
  import opened Imaging
  import opened CaptureController
  import opened Overlay
  import opened OcrResponse
  import opened Multipart
  import opened Token
  import opened Debounce

  const InitialText := "## 使用说明\n1. 在上方设置中填入 Token\n2. 点击菜单「SimpleTex -> 截取屏幕」\n3. 结果将显示在此处，右侧为预览"
  const MissingTokenError := "请先在设置中填写 SimpleTex UAT Token"
  const MissingTokenText := "请在设置区域填入 Token。"
  const ConversionFailed := "图片转换失败"
  const ErrorPrefix := "Error: "

  /** One call to the history store's addRecord. */
  datatype AddedRecord = AddedRecord(image: Image, text: string, conf: real, requestId: string)

  class OcrViewModel {
    var isLoading: bool
    var lastError: Option<string>
    /** The token as typed in the settings, untrimmed. */
    var token: string
    const pipeline: ResultPipeline
    /** How many times onCaptureFinished has been called. */
    var notices: nat
    /** Every request handed to the network, in order. */
    var sent: seq<Request>
    /** Every record handed to the history store, in order. */
    var added: seq<AddedRecord>

    ghost predicate Valid()
      reads pipeline, pipeline.timer
    {
      pipeline.Valid()
    }

    /** The saved token and an initial text shown both raw and in the preview. */
    constructor (savedToken: string, now: int)
      ensures Valid() && fresh(pipeline) && fresh(pipeline.timer)
      ensures token == savedToken && !isLoading && lastError == None
      ensures pipeline.resultText == InitialText && pipeline.debouncedResultText == InitialText
      ensures pipeline.timer.clock == now
      ensures notices == 0 && sent == [] && added == []
    {
      token := savedToken;
      isLoading := false;
      lastError := None;
      notices := 0;
      sent, added := [], [];
      pipeline := new ResultPipeline(InitialText, now);
    }

    /**
     * The menu command. Without a usable token the user is told so,
     * onCaptureFinished runs and no capture starts. Otherwise the error is
     * cleared and a capture begins; a capture that cannot start reports
     * back at once with no image.
     */
    method StartFromMenu(controller: ScreenCaptureController, handler: Handler, screen: Option<Screen>,
                         snapshot: Option<Image>, window: Window, now: int)
      returns (view: Option<ScreenCaptureView>)
      requires Valid() && pipeline.timer.clock <= now
      modifies this, pipeline, pipeline.timer, controller
      ensures Valid() && !isLoading && token == old(token)
      ensures notices == old(notices) + (if view.None? then 1 else 0) && sent == old(sent) && added == old(added)
      ensures CurrentToken(token).None? ==>
        && view.None?
        && lastError == Some(MissingTokenError)
        && pipeline.resultText == MissingTokenText && pipeline.timer.clock == now
        && pipeline.timer.writes == old(pipeline.timer.writes) + [Write(now, MissingTokenText)]
        && unchanged(controller)
      ensures CurrentToken(token).Some? ==>
        && lastError == None
        && unchanged(pipeline, pipeline.timer)
        && controller.completion == Some(handler)
        && (view.Some? <==> screen.Some? && snapshot.Some?)
        && (view.None? ==> controller.calls == old(controller.calls) + [Call(handler, None)])
        && (view.Some? ==> controller.calls == old(controller.calls) && controller.overlayWindow == Some(window))
    {
      if CurrentToken(token).None? {
        Refuse(now);
        view := None;
      } else {
        view := Begin(controller, handler, screen, snapshot, window);
      }
    }

    /** The guard's else branch: the notice and the error text, then onCaptureFinished. */
    method Refuse(now: int)
      requires Valid() && pipeline.timer.clock <= now
      modifies this, pipeline, pipeline.timer
      ensures Valid() && !isLoading && lastError == Some(MissingTokenError)
      ensures notices == old(notices) + 1 && sent == old(sent) && added == old(added) && token == old(token)
      ensures pipeline.resultText == MissingTokenText && pipeline.timer.clock == now
      ensures pipeline.timer.writes == old(pipeline.timer.writes) + [Write(now, MissingTokenText)]
    {
      isLoading := false;
      lastError := Some(MissingTokenError);
      notices := notices + 1;
      pipeline.Set(MissingTokenText, now);
    }

    /**
     * Past the guard: loading off, the error cleared, and the capture
     * begun; when it cannot start, the handler runs at once with no image,
     * which stops loading and calls onCaptureFinished. When the overlay
     * opens, onCaptureFinished waits for the handler (CaptureEnded).
     */
    method Begin(controller: ScreenCaptureController, handler: Handler, screen: Option<Screen>,
                 snapshot: Option<Image>, window: Window)
      returns (view: Option<ScreenCaptureView>)
      modifies this, controller
      ensures !isLoading && lastError == None
      ensures notices == old(notices) + (if view.None? then 1 else 0) && sent == old(sent) && added == old(added) && token == old(token)
      ensures controller.completion == Some(handler)
      ensures view.Some? <==> screen.Some? && snapshot.Some?
      ensures view.None? ==> controller.calls == old(controller.calls) + [Call(handler, None)]
      ensures view.Some? ==> controller.calls == old(controller.calls) && controller.overlayWindow == Some(window)
    {
      isLoading := false;
      lastError := None;
      view := controller.BeginCapture(handler, screen, snapshot, window);
      if view.None? {
        notices := notices + 1;
      }
    }

    /**
     * The capture handler. No image: loading stops. An image: loading
     * starts, and then either the PNG conversion fails, or the token has
     * gone blank in the meantime and nothing at all happens (loading stays
     * on), or the request is built with the trimmed token and sent.
     */
    method CaptureEnded(image: Option<Image>, png: Option<Bytes>, uuid: string) returns (request: Option<Request>)
      modifies this
      ensures token == old(token) && added == old(added)
      ensures notices == old(notices) + 1
      ensures image.None? ==> !isLoading && lastError == old(lastError) && request.None?
      ensures image.Some? && png.None? ==> !isLoading && lastError == Some(ConversionFailed) && request.None?
      ensures image.Some? && png.Some? && CurrentToken(token).None? ==>
        isLoading && lastError == old(lastError) && request.None?
      ensures image.Some? && png.Some? && CurrentToken(token).Some? ==>
        && isLoading && lastError == old(lastError)
        && request.Some? && IsRequestFor(request.value, CurrentToken(token).value, uuid, png.value)
      ensures sent == old(sent) + if request.Some? then [request.value] else []
    {
      notices := notices + 1;
      request := None;
      if image.None? {
        isLoading := false;
      } else {
        isLoading := true;
        if png.None? {
          isLoading := false;
          lastError := Some(ConversionFailed);
        } else {
          var t := CurrentToken(token);
          if t.Some? {
            var req := BuildRequest(t.value, uuid, png.value);
            sent := sent + [req];
            request := Some(req);
          }
        }
      }
    }

    /**
     * The data task's completion for a request made for `image`. With
     * neither an error nor data nothing is called and nothing changes.
     * Otherwise loading stops; a success shows the text and adds a history
     * record, a failure shows and records the error.
     */
    method ResponseArrived(image: Image, error: Option<string>, data: Option<Payload>, now: int)
      requires Valid() && pipeline.timer.clock <= now
      modifies this, pipeline, pipeline.timer
      ensures Valid()
      ensures token == old(token) && notices == old(notices) && sent == old(sent)
      ensures TaskCompletion(error, data).None? ==> unchanged(this, pipeline, pipeline.timer)
      ensures TaskCompletion(error, data).Some? ==> !isLoading && pipeline.timer.clock == now
      ensures TaskCompletion(error, data).Some? && TaskCompletion(error, data).value.Success? ==>
        var r := TaskCompletion(error, data).value;
        && pipeline.resultText == r.text
        && pipeline.timer.writes == old(pipeline.timer.writes) + [Write(now, r.text)]
        && lastError == old(lastError)
        && added == old(added) + [AddedRecord(image, r.text, r.confidence, r.requestId)]
      ensures TaskCompletion(error, data).Some? && TaskCompletion(error, data).value.Failure? ==>
        var d := Describe(TaskCompletion(error, data).value.error);
        && pipeline.resultText == ErrorPrefix + d
        && pipeline.timer.writes == old(pipeline.timer.writes) + [Write(now, ErrorPrefix + d)]
        && lastError == Some(d)
        && added == old(added)
    {
      var outcome := TaskCompletion(error, data);
      if outcome.None? {
        return;
      }
      match outcome.value
      case Success(text, conf, reqId) =>
        Succeed(image, text, conf, reqId, now);
      case Failure(e) =>
        Fail(Describe(e), now);
    }

    /** The success case: loading off, the text shown, and one record for the history. */
    method Succeed(image: Image, text: string, conf: real, requestId: string, now: int)
      requires Valid() && pipeline.timer.clock <= now
      modifies this, pipeline, pipeline.timer
      ensures Valid() && !isLoading && pipeline.timer.clock == now
      ensures pipeline.resultText == text && pipeline.timer.writes == old(pipeline.timer.writes) + [Write(now, text)]
      ensures added == old(added) + [AddedRecord(image, text, conf, requestId)]
      ensures lastError == old(lastError) && token == old(token) && notices == old(notices) && sent == old(sent)
    {
      isLoading := false;
      added := added + [AddedRecord(image, text, conf, requestId)];
      pipeline.Set(text, now);
    }

    /** The failure case: loading off, the description kept as the error and shown after "Error: ". */
    method Fail(description: string, now: int)
      requires Valid() && pipeline.timer.clock <= now
      modifies this, pipeline, pipeline.timer
      ensures Valid() && !isLoading && pipeline.timer.clock == now && lastError == Some(description)
      ensures pipeline.resultText == ErrorPrefix + description
      ensures pipeline.timer.writes == old(pipeline.timer.writes) + [Write(now, ErrorPrefix + description)]
      ensures added == old(added) && token == old(token) && notices == old(notices) && sent == old(sent)
    {
      isLoading := false;
      lastError := Some(description);
      pipeline.Set(ErrorPrefix + description, now);
    }
  }

  /**
   * A capture with a usable token: the overlay opens and the drag's crop
   * comes back through the controller, to this session's handler only.
   */
  method CaptureSession(token: string, screen: Screen, snapshot: Image, crop: Image)
    requires !AllSpace(token)
  {
    var vm := new OcrViewModel(token, 0);
    var c := new ScreenCaptureController();
    var h := Handler(1);
    assert CurrentToken(vm.token).Some?;
    var view := vm.StartFromMenu(c, h, Some(screen), Some(snapshot), Window(1), 10);
    assert view.Some? && !vm.isLoading && vm.lastError == None && c.overlayWindow == Some(Window(1));
    c.Finish(Some(crop));
    assert c.calls == [Call(h, Some(crop))];
  }

  /** The crop handed back turns loading on and sends one request carrying the trimmed token. */
  method RequestSession(token: string, crop: Image, png: Bytes)
    requires !AllSpace(token)
  {
    var vm := new OcrViewModel(token, 0);
    var req := vm.CaptureEnded(Some(crop), Some(png), "U");
    assert vm.isLoading && req.Some? && vm.sent == [req.value];
    assert IsRequestFor(req.value, CurrentToken(token).value, "U", png);
  }

  /**
   * A successful reply: loading stops, one record is added, and after the
   * quiet interval the preview shows the recognised text.
   */
  method ReplySession(crop: Image)
  {
    var vm := new OcrViewModel("tok", 0);
    var reply := Encode(Response(true, Some(Res("document", Structured(Some("x^2")), Some(0.98))), Some("r1")));
    MarkdownExample();
    vm.ResponseArrived(crop, None, Some(Parsed(reply)), 500);
    assert !vm.isLoading && vm.added == [AddedRecord(crop, "x^2", 0.98, "r1")];
    vm.pipeline.Tick(600);
    QuietShowsLatest(vm.pipeline);
    assert vm.pipeline.debouncedResultText == "x^2";
  }
}
