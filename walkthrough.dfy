/**
 * A session through the four handlers, as the buttons of the interface drive
 * them, reasoned about from the handlers' contracts alone.
 */
module Walkthrough {
  import opened Wrappers
  import opened Extraction
  import opened ExtractionExamples
  import opened Pipeline

  method GatingWalkthrough() {
    var app := new App();
    var replyWithPng := (data: ClothingTable, request: Request) =>
      Reply("see https://a.com/x.jpg and https://b.com/y.png");
    var failingAgent := (data: ClothingTable, request: Request) => RequestRaises("timeout");
    var oneRecord := (days: nat) => Returned(Some([RawRecord(map["title" := "shirt"])]));
    var table := ClothingTable(Some(["https://a.com/x.jpg", "https://b.com/y.png"]));
    var processor := (items: seq<RawRecord>) => Returned(Some(table));
    var noTable := (items: seq<RawRecord>) => Returned(None);

    // Nothing is legal before a crawler exists.
    var images, text := app.GetRecommendation("casual", None, None, replyWithPng);
    assert images == [] && text == ProcessDataFirst;
    var gallery := app.ProcessData(oneRecord, None, processor, None, None);
    assert gallery == Returned([]) && app.clothingData == None;
    var status := app.CheckLogin();
    assert status == NotLoggedIn;

    // A failed login still stores the crawler, so the handler reports it as logged in.
    status := app.StartCrawler(LoginReturns(false));
    assert status == LoginFailed;
    status := app.CheckLogin();
    assert status == LoggedIn;

    // Processing replaces the clothing data and shows its image URLs.
    gallery := app.ProcessData(oneRecord, None, processor, None, None);
    assert gallery == Returned(["https://a.com/x.jpg", "https://b.com/y.png"]);
    assert app.Stage() == DataReady;

    // The recommendation keeps only the `.jpg` URL of the reply.
    images, text := app.GetRecommendation("casual", Some(21.5), None, replyWithPng);
    PngUrlDropped();
    assert images == ["https://a.com/x.jpg"];

    // A failing agent yields an empty gallery and leaves the data in place.
    images, text := app.GetRecommendation("casual", None, Some("happy"), failingAgent);
    assert images == [] && text == RecommendationErrorPrefix + "timeout";
    assert app.clothingData == Some(table);

    // A processor that returns no table clears the data; the agent built earlier stays.
    gallery := app.ProcessData(oneRecord, None, noTable, None, None);
    assert gallery == Returned([]) && app.clothingData == None;
    assert app.Stage() == SessionActive && app.fashionAgent.Some?;
    images, text := app.GetRecommendation("casual", None, None, replyWithPng);
    assert images == [] && text == ProcessDataFirst;
  }
}
