/**
 * The handlers of the application module and the four module globals they
 * share: `crawler`, `data_processor`, `fashion_agent` and `clothing_data`.
 *
 * The collaborators whose code lies outside this module (the Taobao crawler,
 * the data processor and the fashion agent) are parameters: each handler is
 * given what the collaborator returns or the error it raises. A Python
 * exception that a handler lets escape is the `Raised` case of `Outcome`.
 */
module Pipeline {
  import opened Wrappers
  import opened Extraction

  /** A Python call either returns a value or raises an exception whose text is `error`. */
  datatype Outcome<T> = Returned(value: T) | Raised(error: string)

  /** What this module sees of a `TaobaoCrawler`: whether its login succeeded and whether it was closed. */
  datatype Crawler = Crawler(loggedIn: bool, closed: bool)

  /** A `DataProcessor`, built with the directory it writes to. */
  datatype DataProcessor = DataProcessor(dataDir: string)

  /** The processed clothing table; only its `image_url` column is read here (`None`: no such column). */
  datatype ClothingTable = ClothingTable(imageUrl: Option<seq<string>>)

  /** A `FashionAgent`, built over the clothing table it recommends from. */
  datatype FashionAgent = FashionAgent(data: ClothingTable)

  /** One scraped purchase record, passed through to the data processor unread. */
  datatype RawRecord = RawRecord(fields: map<string, string>)

  /** The arguments of a recommendation request. */
  datatype Request = Request(stylePreference: string, temperature: Option<real>, mood: Option<string>)

  /** What happens when the login handler builds a crawler and calls its `login()`. */
  datatype LoginAttempt =
    | ConstructorRaises(error: string)
    | LoginReturns(ok: bool)
    | LoginRaises(error: string)

  /** What the fashion agent does with a request: its constructor or the request may raise. */
  datatype AgentAnswer =
    | AgentConstructorRaises(error: string)
    | RequestRaises(error: string)
    | Reply(text: string)

  /** The stages of the pipeline, read off the globals. */
  datatype Stage = NoSession | SessionActive | DataReady

  const LoginSucceeded := "登录成功！"
  const LoginFailed := "登录失败，请重试。"
  const LoginErrorPrefix := "发生错误: "
  const LoggedIn := "已登录"
  const NotLoggedIn := "未登录"
  const ProcessDataFirst := "请先处理数据"
  const RecommendationErrorPrefix := "获取推荐时出错: "
  /** The text of the `KeyError` raised when the table has no `image_url` column. */
  const MissingImageUrlColumn := "'image_url'"
  const DataDir := "data"
  /** How many days of purchase history the data handler asks the crawler for. */
  const LookbackDays := 30

  /** The records a purchase-history call yields when it returns a truthy list, and none otherwise. */
  function HarvestedItems(history: Outcome<Option<seq<RawRecord>>>): seq<RawRecord> {
    if history.Returned? && history.value.Some? then history.value.value else []
  }

  /** The four module globals and the handlers that read and reassign them. */
  class App {
    var crawler: Option<Crawler>
    var dataProcessor: Option<DataProcessor>
    var fashionAgent: Option<FashionAgent>
    var clothingData: Option<ClothingTable>

    /**
     * Each handler sets its global only once the stage before it has run:
     * a data processor needs a crawler, and clothing data and a fashion agent
     * need a data processor. The crawler and the data processor are never
     * cleared; the clothing data is cleared when the processor returns `None`,
     * and a fashion agent built earlier then outlives it.
     */
    ghost predicate Valid()
      reads this
    {
      && (dataProcessor.Some? ==> crawler.Some?)
      && (clothingData.Some? ==> dataProcessor.Some?)
      && (fashionAgent.Some? ==> dataProcessor.Some?)
    }

    function Stage(): Stage
      reads this
    {
      if clothingData.Some? then DataReady
      else if crawler.Some? then SessionActive
      else NoSession
    }

    /** The globals at import time: all unset. */
    constructor ()
      ensures Valid() && Stage() == NoSession
      ensures crawler == None && dataProcessor == None
      ensures fashionAgent == None && clothingData == None
    {
      crawler, dataProcessor, fashionAgent, clothingData := None, None, None, None;
    }

    /**
     * `start_crawler`: builds a new crawler, stores it, then logs in. The
     * crawler is stored before `login()` runs, so it stays set when the login
     * fails or raises; only a failing constructor leaves the old one in place.
     */
    method StartCrawler(attempt: LoginAttempt) returns (status: string)
      requires Valid()
      modifies this
      ensures Valid()
      ensures dataProcessor == old(dataProcessor) && fashionAgent == old(fashionAgent)
      ensures clothingData == old(clothingData)
      ensures attempt.ConstructorRaises? ==>
        crawler == old(crawler) && status == LoginErrorPrefix + attempt.error
      ensures attempt.LoginReturns? ==>
        && crawler == Some(Crawler(attempt.ok, false))
        && status == if attempt.ok then LoginSucceeded else LoginFailed
      ensures attempt.LoginRaises? ==>
        crawler == Some(Crawler(false, false)) && status == LoginErrorPrefix + attempt.error
      ensures !attempt.ConstructorRaises? ==> Stage() != NoSession
      ensures old(Stage()) != NoSession ==> Stage() == old(Stage())
    {
      match attempt
      case ConstructorRaises(error) =>
        status := LoginErrorPrefix + error;
      case LoginReturns(ok) =>
        crawler := Some(Crawler(ok, false));
        status := if ok then LoginSucceeded else LoginFailed;
      case LoginRaises(error) =>
        crawler := Some(Crawler(false, false));
        status := LoginErrorPrefix + error;
    }

    /** `check_login`: reports whether a crawler has been stored, whatever its login did. */
    method CheckLogin() returns (status: string)
      ensures status == LoggedIn <==> crawler.Some?
      ensures status == NotLoggedIn <==> crawler.None?
    {
      status := if crawler.Some? then LoggedIn else NotLoggedIn;
    }

    /**
     * `get_image_urls`: the `image_url` column in row order, or nothing when
     * no data has been processed; a table without that column raises `KeyError`.
     */
    method GetImageUrls() returns (r: Outcome<seq<string>>)
      ensures clothingData.None? ==> r == Returned([])
      ensures clothingData.Some? && clothingData.value.imageUrl.Some? ==>
        r == Returned(clothingData.value.imageUrl.value)
      ensures clothingData.Some? && clothingData.value.imageUrl.None? ==>
        r == Raised(MissingImageUrlColumn)
    {
      match clothingData
      case None =>
        r := Returned([]);
      case Some(table) =>
        r := if table.imageUrl.Some? then Returned(table.imageUrl.value) else Raised(MissingImageUrlColumn);
    }

    /**
     * `process_data`: with a crawler, builds a data processor, fetches the
     * purchase history (an exception there escapes the handler), and for a
     * non-empty history saves it, processes it into a new clothing table that
     * replaces the old one, saves that, closes the crawler and returns the
     * table's image URLs. Any exception from saving the raw records onward is
     * caught and answered with an empty list, even one raised after the
     * table was replaced. A processor that returns `None` clears the clothing
     * data, and saving `None` then raises.
     */
    method ProcessData(
      history: nat -> Outcome<Option<seq<RawRecord>>>,
      saveRaw: Option<string>,
      process: seq<RawRecord> -> Outcome<Option<ClothingTable>>,
      saveProcessed: Option<string>,
      close: Option<string>
    ) returns (r: Outcome<seq<string>>)
      requires Valid()
      modifies this
      ensures Valid()
      ensures fashionAgent == old(fashionAgent)
      // without a crawler nothing happens
      ensures old(crawler).None? ==>
        r == Returned([]) && dataProcessor == old(dataProcessor) && clothingData == old(clothingData)
      ensures old(crawler).None? ==> crawler == old(crawler)
      ensures old(crawler).Some? ==> dataProcessor == Some(DataProcessor(DataDir))
      // a failing history call escapes; an empty history changes nothing more
      ensures old(crawler).Some? && history(LookbackDays).Raised? ==>
        r == Raised(history(LookbackDays).error)
      ensures old(crawler).Some? && HarvestedItems(history(LookbackDays)) == [] ==>
        (history(LookbackDays).Returned? ==> r == Returned([]))
      ensures old(crawler).Some? && HarvestedItems(history(LookbackDays)) == [] ==>
        crawler == old(crawler) && clothingData == old(clothingData)
      // a non-empty history
      ensures old(crawler).Some? && HarvestedItems(history(LookbackDays)) != [] ==>
        var table := process(HarvestedItems(history(LookbackDays)));
        var replaced := saveRaw.None? && table.Returned?;
        var finished := replaced && table.value.Some? && saveProcessed.None? && close.None?;
        && clothingData == (if replaced then table.value else old(clothingData))
        && crawler == (if finished then Some(old(crawler).value.(closed := true)) else old(crawler))
        && r == (if finished && table.value.value.imageUrl.Some? then Returned(table.value.value.imageUrl.value)
                 else Returned([]))
      ensures r.Returned? && r.value != [] ==> Stage() == DataReady
      // processed data is lost only to a processor that returns `None`, and then the gallery is empty
      ensures old(clothingData).Some? && clothingData.None? ==>
        && HarvestedItems(history(LookbackDays)) != [] && saveRaw.None?
        && process(HarvestedItems(history(LookbackDays))) == Returned(None)
        && r == Returned([])
    {
      if crawler.None? {
        return Returned([]);
      }
      dataProcessor := Some(DataProcessor(DataDir));
      var fetched := history(LookbackDays);
      if fetched.Raised? {
        return Raised(fetched.error);
      }
      var items := HarvestedItems(fetched);
      if items == [] {
        return Returned([]);
      }
      if saveRaw.Some? {
        return Returned([]);
      }
      var table := process(items);
      if table.Raised? {
        return Returned([]);
      }
      clothingData := table.value;
      if table.value.None? || saveProcessed.Some? || close.Some? {
        return Returned([]);
      }
      crawler := Some(crawler.value.(closed := true));
      var urls := GetImageUrls();
      r := if urls.Returned? then urls else Returned([]);
    }

    /**
     * `get_recommendation`: without processed data, answers with a request to
     * process data first. Otherwise builds a fashion agent over the table,
     * asks it, and returns the `.jpg` URLs found in its reply together with
     * the reply; any exception from the agent becomes an empty list and an
     * error text. The crawler and the clothing data are never changed.
     */
    method GetRecommendation(
      stylePreference: string,
      temperature: Option<real>,
      mood: Option<string>,
      agent: (ClothingTable, Request) -> AgentAnswer
    ) returns (images: seq<string>, text: string)
      requires Valid()
      modifies this
      ensures Valid()
      ensures crawler == old(crawler) && dataProcessor == old(dataProcessor)
      ensures clothingData == old(clothingData) && Stage() == old(Stage())
      ensures Stage() != DataReady ==>
        images == [] && text == ProcessDataFirst && fashionAgent == old(fashionAgent)
      ensures Stage() == DataReady ==>
        match agent(clothingData.value, Request(stylePreference, temperature, mood))
        case AgentConstructorRaises(error) =>
          images == [] && text == RecommendationErrorPrefix + error && fashionAgent == old(fashionAgent)
        case RequestRaises(error) =>
          images == [] && text == RecommendationErrorPrefix + error
          && fashionAgent == Some(FashionAgent(clothingData.value))
        case Reply(reply) =>
          images == ExtractJpgUrls(reply) && text == reply
          && fashionAgent == Some(FashionAgent(clothingData.value))
    {
      if clothingData.None? {
        return [], ProcessDataFirst;
      }
      var data := clothingData.value;
      match agent(data, Request(stylePreference, temperature, mood))
      case AgentConstructorRaises(error) =>
        images, text := [], RecommendationErrorPrefix + error;
      case RequestRaises(error) =>
        fashionAgent := Some(FashionAgent(data));
        images, text := [], RecommendationErrorPrefix + error;
      case Reply(reply) =>
        fashionAgent := Some(FashionAgent(data));
        images, text := ExtractJpgUrls(reply), reply;
    }
  }
}
