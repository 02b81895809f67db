/**
 * The response records of the API. Amounts are in cents, averages are exact
 * quotients of cents, and a value rounded to two decimals (percentages and
 * growth rates) is an integer number of hundredths.
 */
module Dtos {
  import opened Numbers
  import opened Calendar

  datatype SalesSummary = SalesSummary(
    totalRevenue: Cents,
    totalTransactions: int,
    averageOrderValue: Ratio,
    uniqueCustomers: int,
    uniqueProducts: int,
    startDate: DateTime,
    endDate: DateTime)

  /** `month` is the two-digit month number. */
  datatype MonthlySales = MonthlySales(
    month: string,
    year: int,
    revenue: Cents,
    transactionCount: int,
    averageOrderValue: Ratio)

  /** `percentage` is in hundredths of a percent. */
  datatype RegionalSales = RegionalSales(
    country: string,
    revenue: Cents,
    transactionCount: int,
    percentage: int)

  datatype TopProduct = TopProduct(
    stockCode: string,
    description: string,
    revenue: Cents,
    unitsSold: int,
    transactionCount: int)

  datatype PeriodData = PeriodData(
    revenue: Cents,
    transactionCount: int,
    averageOrderValue: Ratio,
    uniqueCustomers: int,
    startDate: DateTime,
    endDate: DateTime)

  /** Growth rates in hundredths of a percent; trend is "up", "down" or "neutral". */
  datatype GrowthMetrics = GrowthMetrics(
    revenueGrowth: int,
    transactionGrowth: int,
    averageOrderGrowth: int,
    customerGrowth: int,
    trend: string)

  datatype SalesComparison = SalesComparison(
    currentPeriod: PeriodData,
    previousPeriod: PeriodData,
    growth: GrowthMetrics)

  datatype HourlySales = HourlySales(
    hour: int,
    revenue: Cents,
    transactionCount: int,
    averageOrderValue: Ratio)

  datatype RecentSale = RecentSale(
    invoiceNo: string,
    invoiceDate: DateTime,
    productDescription: string,
    country: string,
    quantity: int,
    totalAmount: Cents)

  datatype TopCustomer = TopCustomer(
    customerCode: string,
    totalRevenue: Cents,
    orderCount: int,
    averageOrderValue: Ratio,
    firstPurchase: DateTime,
    lastPurchase: DateTime)

  datatype CustomerAnalytics = CustomerAnalytics(
    totalCustomers: int,
    averageCustomerValue: Ratio,
    averageOrdersPerCustomer: Ratio,
    topCustomers: seq<TopCustomer>)

  /** The anonymous row of the day-of-week endpoint; `dayOfWeek` is the English day name. */
  datatype DaySales = DaySales(
    dayOfWeek: string,
    revenue: Cents,
    transactionCount: int,
    averageOrderValue: Ratio)
}
